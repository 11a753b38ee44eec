/**
 The book-keeping of kernel/virtio_disk.c (sections 2.6 and 5.2 of the Virtio
 1.1 specification): descriptors, the available ring, the used ring and the
 requests in flight.  A method is one critical section on vdisk_lock or one step
 of the device; they may come in any order.
 */
module VirtioDisk {
  import opened Common

  const NUM: nat := 8
  const F_NEXT: nat := 1
  const F_WRITE: nat := 2
  const U16: nat := 0x1_0000

  datatype Desc = Desc(flags: nat, next: nat)
  datatype Info = Info(b: Option<nat>, status: nat)

  // A request on its way: put on the available ring, taken by the device,
  // completed at place q of the used ring, seen by the interrupt handler.
  datatype Stage = Queued | Taken | Done(q: nat) | Seen
  // The chain of three descriptors that starts at its key: the id-th request ever made, for buffer buf.
  datatype Chain = Chain(d1: nat, d2: nat, buf: nat, id: nat, stage: Stage)
  type Chains = map<nat, Chain>

  datatype Ring = Ring(idx: nat, ring: seq<nat>)

  // What the driver and the device have done: the chains in flight, the owner of
  // each descriptor, all heads ever put on the available ring and how many of
  // them the device has taken, all heads ever put on the used ring and how many
  // of them the driver has seen, and the requests the device has completed.
  datatype Flight = Flight(chains: Chains, owner: seq<nat>, submitted: seq<nat>, taken: nat, completed: seq<nat>,
    seen: nat, finished: set<nat>)

  // ---- descriptors

  // owner[i] is the head of the chain descriptor i is in, NUM when it is free.
  ghost predicate Owned(free: seq<bool>, owner: seq<nat>, chains: Chains) {
    && |free| == |owner| == NUM
    && (forall i :: 0 <= i < NUM ==> (free[i] <==> owner[i] == NUM))
    && (forall i :: 0 <= i < NUM && owner[i] != NUM ==>
       owner[i] in chains && (i == owner[i] || i == chains[owner[i]].d1 || i == chains[owner[i]].d2))
    && (forall h :: h in chains ==> InChain(owner, h, chains[h]))
  }

  ghost predicate InChain(owner: seq<nat>, h: nat, c: Chain)
    requires |owner| == NUM
  {
    && h < NUM && c.d1 < NUM && c.d2 < NUM && h != c.d1 && h != c.d2 && c.d1 != c.d2
    && owner[h] == h && owner[c.d1] == h && owner[c.d2] == h
  }

  ghost function CountFree(free: seq<bool>): nat {
    if free == [] then 0 else CountFree(free[..|free| - 1]) + if free[|free| - 1] then 1 else 0
  }

  lemma {:induction false} CountWith(free: seq<bool>, i: nat, x: bool)
    requires i < |free|
    ensures CountFree(free[i := x]) == CountFree(free) - (if free[i] then 1 else 0) + (if x then 1 else 0)
  {
    var n := |free| - 1;
    if i == n {
      assert free[i := x][..n] == free[..n];
    } else {
      assert free[i := x][..n] == free[..n][i := x];
      CountWith(free[..n], i, x);
    }
  }

  lemma {:induction false} CountAll(free: seq<bool>)
    requires forall i :: 0 <= i < |free| ==> free[i]
    ensures CountFree(free) == |free|
  {
    if free != [] {
      CountAll(free[..|free| - 1]);
    }
  }

  // The descriptors of chain h set to x.
  function SetThree<T>(s: seq<T>, h: nat, c: Chain, x: T): seq<T>
    requires h < |s| && c.d1 < |s| && c.d2 < |s|
  {
    s[h := x][c.d1 := x][c.d2 := x]
  }

  lemma InRange(free: seq<bool>, owner: seq<nat>, chains: Chains, h: nat)
    requires Owned(free, owner, chains) && h in chains
    ensures h < NUM && chains[h].d1 < NUM && chains[h].d2 < NUM
    ensures h != chains[h].d1 && h != chains[h].d2 && chains[h].d1 != chains[h].d2
    ensures !free[h] && !free[chains[h].d1] && !free[chains[h].d2]
  {
    assert InChain(owner, h, chains[h]);
  }

  // Freeing the three descriptors of a chain leaves the other chains theirs.
  lemma OwnedWithout(free: seq<bool>, owner: seq<nat>, chains: Chains, h: nat)
    requires Owned(free, owner, chains) && h in chains && h < NUM && chains[h].d1 < NUM && chains[h].d2 < NUM
    ensures Owned(SetThree(free, h, chains[h], true), SetThree(owner, h, chains[h], NUM), chains - {h})
  {
    var owner' := SetThree(owner, h, chains[h], NUM);
    forall h' | h' in chains && h' != h ensures InChain(owner', h', chains[h']) {
      assert InChain(owner, h', chains[h']);
    }
  }

  /** Free descriptors: all but three for each request in flight. */
  lemma {:induction false} FreeCount(free: seq<bool>, owner: seq<nat>, chains: Chains)
    requires Owned(free, owner, chains)
    ensures CountFree(free) == NUM - 3 * |chains| && |chains| <= 2
    decreases |chains|
  {
    if chains == map[] {
      CountAll(free);
    } else {
      var h :| h in chains;
      var c := chains[h];
      InRange(free, owner, chains, h);
      OwnedWithout(free, owner, chains, h);
      FreeCount(SetThree(free, h, c, true), SetThree(owner, h, c, NUM), chains - {h});
      CountWith(free, h, true);
      CountWith(free[h := true], c.d1, true);
      CountWith(free[h := true][c.d1 := true], c.d2, true);
      assert |chains - {h}| == |chains| - 1 by {
        assert (chains - {h}).Keys == chains.Keys - {h};
        assert |chains.Keys| == |chains| && |(chains - {h}).Keys| == |chains - {h}|;
      }
    }
  }

  ghost function Members(h: nat, c: Chain): set<nat> {
    {h, c.d1, c.d2}
  }

  // Free or in exactly one chain.
  lemma ChainsAreDisjoint(free: seq<bool>, owner: seq<nat>, chains: Chains, h: nat, h': nat)
    requires Owned(free, owner, chains) && h in chains && h' in chains && h != h'
    ensures Members(h, chains[h]) !! Members(h', chains[h'])
  {
    assert InChain(owner, h, chains[h]) && InChain(owner, h', chains[h']);
  }

  // ---- what the descriptors and info entries say

  ghost predicate Linked(desc: seq<Desc>, chains: Chains) {
    && |desc| == NUM
    && forall h :: h in chains && h < NUM && chains[h].d1 < NUM && chains[h].d2 < NUM ==>
      && desc[h] == Desc(F_NEXT, chains[h].d1)
      && desc[chains[h].d1].flags % 2 == F_NEXT && desc[chains[h].d1].next == chains[h].d2
      && desc[chains[h].d2].flags % 2 == 0
  }

  ghost predicate Recorded(info: seq<Info>, chains: Chains) {
    && |info| == NUM
    && (forall h :: h in chains && h < NUM ==> info[h].b == Some(chains[h].buf))
    && (forall h :: h in chains && h < NUM && chains[h].stage.Seen? ==> info[h].status == 0)
    && (forall h, h' :: h in chains && h' in chains && h != h' ==> chains[h].buf != chains[h'].buf)
  }

  // The device wrote status 0 for the request at h.
  ghost predicate Succeeded(info: seq<Info>, h: nat) {
    h < |info| && info[h].status == 0
  }

  // b->disk is 1 from the request until the interrupt handler has seen its completion.
  ghost predicate Busy(busy: set<nat>, chains: Chains) {
    forall h :: h in chains ==> (chains[h].buf in busy <==> !chains[h].stage.Seen?)
  }

  // ---- the rings

  // 16-bit indices wrap; entry idx % NUM of a ring goes with index idx.
  function Inc(idx: nat): nat {
    (idx + 1) % U16
  }

  function Entry(idx: nat): (e: nat)
    ensures e < NUM
  {
    idx % NUM
  }

  lemma Wrapped(n: nat)
    ensures n % U16 % NUM == n % NUM && Inc(n % U16) == (n + 1) % U16
  {
  }

  lemma EntriesDiffer(p: nat, n: nat)
    requires p < n < p + NUM
    ensures p % NUM != n % NUM
  {
  }

  // submitted lists all heads ever put on the available ring; the device has taken the first `taken`.
  ghost predicate Available(idx: nat, ring: seq<nat>, submitted: seq<nat>, taken: nat, chains: Chains) {
    && |ring| == NUM && idx == |submitted| % U16 && taken <= |submitted|
    && (forall p :: taken <= p < |submitted| ==> ring[p % NUM] == submitted[p])
    && (forall p :: taken <= p < |submitted| ==>
       submitted[p] in chains && chains[submitted[p]].id == p && chains[submitted[p]].stage.Queued?)
    && (forall h :: h in chains ==> chains[h].id < |submitted| && submitted[chains[h].id] == h)
    && (forall h :: h in chains ==> (chains[h].stage.Queued? <==> taken <= chains[h].id))
  }

  // completed lists all heads ever put on the used ring; the driver has looked at the first `seen`.
  ghost predicate Used(idx: nat, seenIdx: nat, ring: seq<nat>, completed: seq<nat>, seen: nat, chains: Chains) {
    && |ring| == NUM && idx == |completed| % U16 && seenIdx == seen % U16 && seen <= |completed|
    && (forall q :: seen <= q < |completed| ==> ring[q % NUM] == completed[q])
    && (forall q :: seen <= q < |completed| ==> completed[q] in chains && chains[completed[q]].stage == Done(q))
    && (forall h :: h in chains && chains[h].stage.Done? ==>
        seen <= chains[h].stage.q < |completed| && completed[chains[h].stage.q] == h)
  }

  // The requests the device has completed.
  ghost predicate Finished(finished: set<nat>, chains: Chains) {
    forall h :: h in chains ==> (chains[h].id in finished <==> chains[h].stage.Done? || chains[h].stage.Seen?)
  }

  // Only requests that were made.
  ghost predicate Past(finished: set<nat>, n: nat) {
    forall id :: id in finished ==> id < n
  }

  /** The driver's memory, struct disk. */
  datatype Queue = Queue(free: seq<bool>, desc: seq<Desc>, info: seq<Info>,
                         busy: set<nat>,   // the buffers whose b->disk is 1
                         avail: Ring, used: Ring,
                         seenIdx: nat,     // used_idx, how far the driver has looked
                         deviceIdx: nat)   // how far the device has looked

  ghost predicate Inv(d: Queue, g: Flight) {
    && Owned(d.free, g.owner, g.chains) && Linked(d.desc, g.chains)
    && Recorded(d.info, g.chains) && Busy(d.busy, g.chains)
    && Available(d.avail.idx, d.avail.ring, g.submitted, g.taken, g.chains) && d.deviceIdx == g.taken % U16
    && Used(d.used.idx, d.seenIdx, d.used.ring, g.completed, g.seen, g.chains)
    && Finished(g.finished, g.chains) && Past(g.finished, |g.submitted|)
  }

  // Neither ring ever holds more than the requests in flight, so no entry is overwritten before its use.
  lemma RingsHaveRoom(idx: nat, ring: seq<nat>, submitted: seq<nat>, taken: nat, chains: Chains,
                      uidx: nat, sidx: nat, uring: seq<nat>, completed: seq<nat>, seen: nat)
    requires Available(idx, ring, submitted, taken, chains) && Used(uidx, sidx, uring, completed, seen, chains)
      && |chains| <= 2
    ensures |submitted| - taken <= 2 && |completed| - seen <= 2
  {
    if |submitted| - taken > 2 {
      ThreeKeys(chains, submitted[taken], submitted[taken + 1], submitted[taken + 2]);
    }
    if |completed| - seen > 2 {
      ThreeKeys(chains, completed[seen], completed[seen + 1], completed[seen + 2]);
    }
  }

  lemma ThreeKeys(chains: Chains, a: nat, b: nat, c: nat)
    requires a in chains && b in chains && c in chains && a != b && a != c && b != c
    ensures |chains| > 2
  {
    assert chains.Keys == {a, b, c} + (chains.Keys - {a, b, c});
    assert |{a, b, c}| == 3;
    assert |chains| == |chains.Keys|;
  }

  // ---- how each step changes the invariant

  lemma NotAHead(free: seq<bool>, owner: seq<nat>, chains: Chains, h: nat)
    requires Owned(free, owner, chains) && h < NUM && free[h]
    ensures h !in chains
  {
    assert h in chains ==> InChain(owner, h, chains[h]);
  }

  // Three free descriptors become a chain.
  lemma OwnedWith(free: seq<bool>, owner: seq<nat>, chains: Chains, h: nat, c: Chain)
    requires Owned(free, owner, chains) && h < NUM && c.d1 < NUM && c.d2 < NUM
    requires free[h] && free[c.d1] && free[c.d2] && h != c.d1 && h != c.d2 && c.d1 != c.d2
    ensures Owned(SetThree(free, h, c, false), SetThree(owner, h, c, h), chains[h := c])
  {
    NotAHead(free, owner, chains, h);
    var owner' := SetThree(owner, h, c, h);
    forall h' | h' in chains ensures InChain(owner', h', chains[h']) {
      assert InChain(owner, h', chains[h']);
    }
  }

  // A change of stage is no change of descriptors.
  lemma OwnedSame(free: seq<bool>, owner: seq<nat>, chains: Chains, h: nat, stage: Stage)
    requires Owned(free, owner, chains) && h in chains
    ensures Owned(free, owner, chains[h := chains[h].(stage := stage)])
  {
    var chains' := chains[h := chains[h].(stage := stage)];
    forall h' | h' in chains' ensures InChain(owner, h', chains'[h']) {
      assert InChain(owner, h', chains[h']);
    }
  }

  // Descriptors that are in no chain may hold anything.
  lemma LinkedFrame(free: seq<bool>, owner: seq<nat>, desc: seq<Desc>, desc': seq<Desc>, chains: Chains)
    requires Owned(free, owner, chains) && Linked(desc, chains) && |desc'| == NUM
    requires forall i :: 0 <= i < NUM && !free[i] ==> desc'[i] == desc[i]
    ensures Linked(desc', chains)
  {
    forall h | h in chains
      ensures desc'[h] == desc[h] && desc'[chains[h].d1] == desc[chains[h].d1]
        && desc'[chains[h].d2] == desc[chains[h].d2]
    {
      InRange(free, owner, chains, h);
    }
  }

  lemma AvailableWith(idx: nat, ring: seq<nat>, submitted: seq<nat>, taken: nat, chains: Chains, h: nat, c: Chain)
    requires Available(idx, ring, submitted, taken, chains) && h !in chains && |submitted| - taken < NUM
    requires c.id == |submitted| && c.stage.Queued?
    ensures Available(Inc(idx), ring[Entry(idx) := h], submitted + [h], taken, chains[h := c])
  {
    Wrapped(|submitted|);
    var ring' := ring[Entry(idx) := h];
    forall p | taken <= p < |submitted| + 1 ensures ring'[p % NUM] == (submitted + [h])[p] {
      if p < |submitted| {
        EntriesDiffer(p, |submitted|);
      }
    }
  }

  lemma AvailableWithout(idx: nat, ring: seq<nat>, submitted: seq<nat>, taken: nat, chains: Chains, h: nat)
    requires Available(idx, ring, submitted, taken, chains) && h in chains && !chains[h].stage.Queued?
    ensures Available(idx, ring, submitted, taken, chains - {h})
  {
  }

  // The device takes the next entry.
  lemma AvailableTaken(idx: nat, ring: seq<nat>, submitted: seq<nat>, taken: nat, chains: Chains)
    requires Available(idx, ring, submitted, taken, chains) && taken < |submitted|
    ensures var h := submitted[taken];
      && h in chains && ring[Entry(taken % U16)] == h && chains[h].stage.Queued?
      && Available(idx, ring, submitted, taken + 1, chains[h := chains[h].(stage := Taken)])
  {
    var h := submitted[taken];
    Wrapped(taken);
    assert ring[taken % NUM] == h;
    assert chains[h].id == taken;
    var chains' := chains[h := chains[h].(stage := Taken)];
    forall h' | h' in chains' && h' != h ensures chains[h'].id != taken {
      assert submitted[chains[h'].id] == h';
    }
  }

  lemma AvailableMoved(idx: nat, ring: seq<nat>, submitted: seq<nat>, taken: nat, chains: Chains, h: nat, stage: Stage)
    requires Available(idx, ring, submitted, taken, chains) && h in chains && !chains[h].stage.Queued? && !stage.Queued?
    ensures Available(idx, ring, submitted, taken, chains[h := chains[h].(stage := stage)])
  {
  }

  lemma UsedWith(idx: nat, seenIdx: nat, ring: seq<nat>, completed: seq<nat>, seen: nat, chains: Chains, h: nat,
                 c: Chain)
    requires Used(idx, seenIdx, ring, completed, seen, chains) && !c.stage.Done?
      && (h in chains ==> !chains[h].stage.Done?)
    ensures Used(idx, seenIdx, ring, completed, seen, chains[h := c])
  {
  }

  lemma UsedWithout(idx: nat, seenIdx: nat, ring: seq<nat>, completed: seq<nat>, seen: nat, chains: Chains, h: nat)
    requires Used(idx, seenIdx, ring, completed, seen, chains) && h in chains && !chains[h].stage.Done?
    ensures Used(idx, seenIdx, ring, completed, seen, chains - {h})
  {
  }

  // The device completes a request it had taken.
  lemma UsedDone(idx: nat, seenIdx: nat, ring: seq<nat>, completed: seq<nat>, seen: nat, chains: Chains, h: nat)
    requires Used(idx, seenIdx, ring, completed, seen, chains) && h in chains && chains[h].stage.Taken?
      && |completed| - seen < NUM
    ensures Used(Inc(idx), seenIdx, ring[Entry(idx) := h], completed + [h], seen,
      chains[h := chains[h].(stage := Done(|completed|))])
  {
    Wrapped(|completed|);
    var ring' := ring[Entry(idx) := h];
    forall q | seen <= q < |completed| + 1 ensures ring'[q % NUM] == (completed + [h])[q] {
      if q < |completed| {
        EntriesDiffer(q, |completed|);
      }
    }
  }

  // The interrupt handler looks at one entry.
  lemma UsedSeen(idx: nat, seenIdx: nat, ring: seq<nat>, completed: seq<nat>, seen: nat, chains: Chains)
    requires Used(idx, seenIdx, ring, completed, seen, chains) && seen < |completed|
    ensures var h := completed[seen];
      h in chains && ring[Entry(seenIdx)] == h && chains[h].stage == Done(seen)
      && Used(idx, Inc(seenIdx), ring, completed, seen + 1, chains[h := chains[h].(stage := Seen)])
  {
    var h := completed[seen];
    Wrapped(seen);
    assert ring[seen % NUM] == completed[seen];
  }

  // The 16-bit indices differ exactly when there is something to look at.
  lemma IndicesTell(idx: nat, seenIdx: nat, ring: seq<nat>, completed: seq<nat>, seen: nat, chains: Chains)
    requires Used(idx, seenIdx, ring, completed, seen, chains) && |completed| - seen <= 2
    ensures seenIdx != idx <==> seen < |completed|
  {
  }

  // ---- the driver

  datatype Verdict = Ok | FreeDesc1 | FreeDesc2 | IntrStatus     // the panics

  class Driver {
    var free: seq<bool>
    var desc: seq<Desc>
    var info: seq<Info>
    var busy: set<nat>
    var avail: Ring
    var used: Ring
    var seenIdx: nat
    var deviceIdx: nat
    ghost var g: Flight

    ghost function Now(): Queue
      reads this
    {
      Queue(free, desc, info, busy, avail, used, seenIdx, deviceIdx)
    }

    ghost predicate Valid()
      reads this
    {
      Inv(Now(), g)
    }

    constructor ()
      ensures Valid() && g == Flight(map[], seq(NUM, _ => NUM), [], 0, [], 0, {})
    {
      free := seq(NUM, _ => true);
      desc := seq(NUM, _ => Desc(0, 0));
      info := seq(NUM, _ => Info(None, 0));
      busy := {};
      avail, used := Ring(0, seq(NUM, _ => 0)), Ring(0, seq(NUM, _ => 0));
      seenIdx, deviceIdx := 0, 0;
      g := Flight(map[], seq(NUM, _ => NUM), [], 0, [], 0, {});
    }

    /** alloc_desc: the first free descriptor, -1 when there is none. */
    method AllocDesc() returns (i: int)
      requires |free| == NUM
      modifies this`free
      ensures -1 <= i < NUM && |free| == NUM
      ensures i == -1 ==> free == old(free) && forall j :: 0 <= j < NUM ==> !free[j]
      ensures i >= 0 ==> old(free)[i] && free == old(free)[i := false] && forall j :: 0 <= j < i ==> !old(free)[j]
    {
      i := 0;
      while i < NUM
        invariant 0 <= i <= NUM && free == old(free) && forall j :: 0 <= j < i ==> !free[j]
      {
        if free[i] {
          free := free[i := false];
          return;
        }
        i := i + 1;
      }
      return -1;
    }

    /** free_desc, which panics exactly on an index out of range or a free descriptor. */
    method FreeDesc(i: nat) returns (v: Verdict)
      requires |free| == |desc| == NUM
      modifies this`free, this`desc
      ensures v == if i >= NUM then FreeDesc1 else if old(free)[i] then FreeDesc2 else Ok
      ensures v == Ok ==> free == old(free)[i := true] && desc == old(desc)[i := Desc(0, 0)]
      ensures v != Ok ==> free == old(free) && desc == old(desc)
    {
      if i >= NUM {
        return FreeDesc1;
      }
      if free[i] {
        return FreeDesc2;
      }
      desc := desc[i := Desc(0, 0)];
      free := free[i := true];
      return Ok;
    }

    /** alloc3_desc: three different free descriptors, or, when there are not three, everything as it was. */
    method Alloc3Desc() returns (idx: Option<(nat, nat, nat)>)
      requires |free| == |desc| == NUM
      modifies this`free, this`desc
      ensures |free| == |desc| == NUM
      ensures idx.None? ==> free == old(free) && CountFree(free) < 3
      ensures idx.Some? ==> var (a, b, c) := idx.value;
        && a < NUM && b < NUM && c < NUM && a != b && a != c && b != c && old(free)[a] && old(free)[b] && old(free)[c]
        && free == old(free)[a := false][b := false][c := false]
      ensures forall i :: 0 <= i < NUM && !old(free)[i] ==> desc[i] == old(desc)[i]
    {
      var a := AllocDesc();
      if a < 0 {
        NoneFree(free);
        return None;
      }
      CountWith(old(free), a, false);
      var b := AllocDesc();
      if b < 0 {
        NoneFree(free);
        var v := FreeDesc(a);
        assert free == old(free);
        return None;
      }
      CountWith(old(free)[a := false], b, false);
      var c := AllocDesc();
      if c < 0 {
        NoneFree(free);
        var v := FreeDesc(a);
        v := FreeDesc(b);
        assert free == old(free);
        return None;
      }
      return Some((a, b, c));
    }

    /** Two requests in flight leave too few descriptors for a third, and always room on the rings. */
    lemma WhenFull()
      requires Valid()
      ensures CountFree(free) == NUM - 3 * |g.chains| && |g.chains| <= 2
      ensures |g.submitted| - g.taken <= 2 && |g.completed| - g.seen <= 2
    {
      FreeCount(free, g.owner, g.chains);
      RingsHaveRoom(avail.idx, avail.ring, g.submitted, g.taken, g.chains, used.idx, seenIdx, used.ring, g.completed,
        g.seen);
    }

    /**
     virtio_disk_rw up to its wait: a new request for buffer b, at the end of the
     available ring, or None, with all as before, when two are in flight and the
     caller has to sleep.
     */
    method Submit(b: nat, write: bool) returns (r: Option<nat>)
      requires Valid() && forall h :: h in g.chains ==> g.chains[h].buf != b
      modifies this
      ensures Valid()
      ensures r.None? <==> |old(g).chains| == 2
      ensures r.None? ==> g == old(g) && busy == old(busy) && free == old(free)
      ensures r.Some? ==> exists c :: Made(old(g), g, r.value, c) && c.buf == b && busy == old(busy) + {b}
    {
      hide Inv, CountFree, SetThree;
      Sizes(Now(), g);
      WhenFull();
      var idx := Alloc3Desc();
      StillLinked(old(Now()), desc, g);
      if idx.None? {
        return None;
      }
      var (d0, d1, d2) := idx.value;
      EnoughFree(old(free), d0, d1, d2);
      ghost var c := Chain(d1, d2, b, |g.submitted|, Queued);
      ThreeFalse(old(free), d0, c);
      Post(b, write, d0, d1, d2, c, old(free));
      assert Made(old(g), g, d0, c);
      return Some(d0);
    }

    /** The three descriptors filled in, the buffer recorded, and the head put on the available ring. */
    method Post(b: nat, write: bool, d0: nat, d1: nat, d2: nat, ghost c: Chain, ghost free0: seq<bool>)
      requires Inv(Now().(free := free0), g)
      requires |g.submitted| - g.taken <= 2 && forall h :: h in g.chains ==> g.chains[h].buf != b
      requires |free0| == |desc| == |info| == |avail.ring| == |g.owner| == NUM
      requires d0 < NUM && d1 < NUM && d2 < NUM && d0 != d1 && d0 != d2 && d1 != d2 && free0[d0] && free0[d1]
        && free0[d2]
      requires c == Chain(d1, d2, b, |g.submitted|, Queued) && free == SetThree(free0, d0, c, false)
      modifies this`desc, this`info, this`busy, this`avail, this`g
      ensures Valid() && Made(old(g), g, d0, c) && busy == old(busy) + {b}
    {
      hide Inv, SetThree, Filled, Inc, Entry;
      Posted(Now().(free := free0), g, d0, c, write);
      desc := Filled(desc, d0, d1, d2, write);
      info := info[d0 := Info(Some(b), 0xff)];
      busy := busy + {b};
      avail := Ring(Inc(avail.idx), avail.ring[Entry(avail.idx) := d0]);
      g := g.(chains := g.chains[d0 := c], owner := SetThree(g.owner, d0, c, d0), submitted := g.submitted + [d0]);
    }

    /** The device reads the next available entry: the oldest request it has not taken. */
    method DeviceTake() returns (h: nat)
      requires Valid() && g.taken < |g.submitted|
      modifies this`deviceIdx, this`g
      ensures Valid() && h == old(g).submitted[old(g).taken] && Moved(old(g), g, h, Taken)
    {
      hide Inv, Inc, Entry;
      Sizes(Now(), g);
      TakenOne(Now(), g);
      h := avail.ring[Entry(deviceIdx)];
      deviceIdx := Inc(deviceIdx);
      g := g.(taken := g.taken + 1, chains := g.chains[h := g.chains[h].(stage := Taken)]);
    }

    /** The device completes any request it has taken, with a status that is 0 for success. */
    method DeviceComplete(h: nat, status: nat)
      requires Valid() && h in g.chains && g.chains[h].stage.Taken?
      modifies this`info, this`used, this`g
      ensures Valid() && Moved(old(g), g, h, Done(|old(g).completed|))
        && g.finished == old(g).finished + {old(g).chains[h].id}
      ensures h < |info| && info == old(info)[h := old(info)[h].(status := status)]
    {
      hide Inv, Inc, Entry;
      Sizes(Now(), g);
      WhenFull();
      CompletedOne(Now(), g, h, status);
      info := info[h := info[h].(status := status)];
      used := Ring(Inc(used.idx), used.ring[Entry(used.idx) := h]);
      g := g.(completed := g.completed + [h], finished := g.finished + {g.chains[h].id},
              chains := g.chains[h := g.chains[h].(stage := Done(|g.completed|))]);
    }

    /** One turn of virtio_disk_intr's loop: the request that completed next is woken, if the device succeeded. */
    method IntrOne() returns (v: Verdict)
      requires Valid() && seenIdx != used.idx
      modifies this`busy, this`seenIdx, this`g
      ensures Valid() && old(g).seen < |g.completed| && g.completed == old(g).completed
      ensures v == if Succeeded(info, g.completed[old(g).seen]) then Ok else IntrStatus
      ensures v == Ok ==>
        var h := g.completed[old(g).seen];
        Moved(old(g), g, h, Seen) && old(g).chains[h].stage.Done? && g.seen == old(g).seen + 1
          && busy == old(busy) - {old(g).chains[h].buf}
      ensures v != Ok ==> g == old(g) && busy == old(busy)
    {
      hide Inv, Inc, Entry;
      Sizes(Now(), g);
      WhenFull();
      SeenOne(Now(), g);
      var id := used.ring[Entry(seenIdx)];
      if info[id].status != 0 {
        return IntrStatus;
      }
      busy := busy - {info[id].b.value};
      seenIdx := Inc(seenIdx);
      g := g.(seen := g.seen + 1, chains := g.chains[id := g.chains[id].(stage := Seen)]);
      return Ok;
    }

    /** virtio_disk_intr: every completion on the used ring, up to one that failed, which is the panic. */
    method Intr() returns (v: Verdict)
      requires Valid()
      modifies this`busy, this`seenIdx, this`g
      ensures Valid() && g.completed == old(g).completed && g.finished == old(g).finished
      ensures old(g).seen <= g.seen <= |g.completed|
      ensures forall i :: old(g).seen <= i < g.seen ==> Succeeded(info, g.completed[i])
      ensures if g.seen == |g.completed| then v == Ok
        else v == IntrStatus && !Succeeded(info, g.completed[g.seen])
      ensures g.submitted == old(g).submitted && g.chains.Keys == old(g).chains.Keys
      ensures forall h :: h in g.chains ==>
        g.chains[h] == old(g).chains[h]
          || (old(g).chains[h].stage.Done? && g.chains[h] == old(g).chains[h].(stage := Seen))
      ensures v == Ok ==> forall h :: h in g.chains ==>
        g.chains[h] == if old(g).chains[h].stage.Done? then old(g).chains[h].(stage := Seen) else old(g).chains[h]
    {
      hide Inv, Succeeded;
      v := Ok;
      SeenSoFar(Now(), g);
      while seenIdx != used.idx
        invariant v == Ok && Valid() && g.completed == old(g).completed && g.finished == old(g).finished
          && g.submitted == old(g).submitted
        invariant old(g).seen <= g.seen <= |g.completed| && g.chains.Keys == old(g).chains.Keys
        invariant forall i :: old(g).seen <= i < g.seen ==> Succeeded(info, g.completed[i])
        invariant forall h :: h in g.chains ==>
          g.chains[h] == old(g).chains[h]
            || (old(g).chains[h].stage.Done? && g.chains[h] == old(g).chains[h].(stage := Seen))
        decreases |g.completed| - g.seen
      {
        v := IntrOne();
        SeenSoFar(Now(), g);
        if v != Ok {
          return;
        }
      }
      WhenFull();
      AllSeen(Now(), g);
    }

    /** free_chain: the three descriptors of a chain, one after the other; no panic. */
    method FreeChain(head: nat, ghost c: Chain) returns (v: Verdict)
      requires |free| == |desc| == NUM && head < NUM && c.d1 < NUM && c.d2 < NUM && head != c.d1 && head != c.d2
        && c.d1 != c.d2
      requires !free[head] && !free[c.d1] && !free[c.d2]
      requires desc[head] == Desc(F_NEXT, c.d1) && desc[c.d1].flags % 2 == F_NEXT && desc[c.d1].next == c.d2
        && desc[c.d2].flags % 2 == 0
      modifies this`free, this`desc
      ensures v == Ok && free == SetThree(old(free), head, c, true) && |desc| == NUM
      ensures forall i :: 0 <= i < NUM && i != head && i != c.d1 && i != c.d2 ==> desc[i] == old(desc)[i]
    {
      var i := head;
      ghost var k := 0;
      while true
        invariant 0 <= k < 3 && i == [head, c.d1, c.d2][k] && |desc| == |free| == NUM
        invariant k == 0 ==> free == old(free)
        invariant k == 1 ==> free == old(free)[head := true]
        invariant k == 2 ==> free == old(free)[head := true][c.d1 := true]
        invariant forall j :: 0 <= j < NUM && !(k > 0 && j == head) && !(k > 1 && j == c.d1) ==> desc[j] == old(desc)[j]
        decreases 3 - k
      {
        var flag, nxt := desc[i].flags, desc[i].next;
        v := FreeDesc(i);
        if flag % 2 != 1 {
          break;
        }
        i := nxt;
        k := k + 1;
      }
    }

    /**
     virtio_disk_rw after its wait: b->disk is 0 again, which it is only when the
     device has completed this very request, with success; the three descriptors
     are free again.
     */
    method Reap(head: nat, b: nat) returns (v: Verdict)
      requires Valid() && head in g.chains && g.chains[head].buf == b && b !in busy
      modifies this`info, this`free, this`desc, this`g
      ensures v == Ok && Valid() && g.chains == old(g).chains - {head} && g.finished == old(g).finished
      ensures old(g).chains[head].id in g.finished && Succeeded(old(info), head)
      ensures CountFree(free) == CountFree(old(free)) + 3
    {
      hide Inv, SetThree, CountFree;
      ghost var c := g.chains[head];
      WhenFull();
      ChainFacts(Now(), g, head);
      info := info[head := info[head].(b := None)];
      v := FreeChain(head, c);
      Reaped(old(Now()), desc, g, head);
      g := g.(chains := g.chains - {head}, owner := SetThree(g.owner, head, c, NUM));
      WhenFull();
      OneLess(old(g).chains, head);
    }
  }

  // Chain h goes on to another stage; the other chains stay where they are.
  ghost predicate Moved(g: Flight, g': Flight, h: nat, stage: Stage) {
    && h in g.chains && g'.chains == g.chains[h := g.chains[h].(stage := stage)]
    && g'.owner == g.owner && g'.submitted == g.submitted
    && (!stage.Done? ==> g'.completed == g.completed && g'.finished == g.finished)
  }

  lemma OneLess(chains: Chains, h: nat)
    requires h in chains
    ensures |chains - {h}| == |chains| - 1
  {
    assert (chains - {h}).Keys == chains.Keys - {h};
    assert |chains.Keys| == |chains| && |(chains - {h}).Keys| == |chains - {h}|;
  }

  lemma TakenOne(d: Queue, g: Flight)
    requires Inv(d, g) && g.taken < |g.submitted| && |d.avail.ring| == NUM
    ensures var h := g.submitted[g.taken];
      && d.avail.ring[Entry(d.deviceIdx)] == h && h in g.chains
      && Inv(d.(deviceIdx := Inc(d.deviceIdx)),
         g.(taken := g.taken + 1, chains := g.chains[h := g.chains[h].(stage := Taken)]))
  {
    hide Owned, Used, Available;
    var h := g.submitted[g.taken];
    AvailableTaken(d.avail.idx, d.avail.ring, g.submitted, g.taken, g.chains);
    OwnedSame(d.free, g.owner, g.chains, h, Taken);
    UsedWith(d.used.idx, d.seenIdx, d.used.ring, g.completed, g.seen, g.chains, h, g.chains[h].(stage := Taken));
  }

  lemma CompletedOne(d: Queue, g: Flight, h: nat, status: nat)
    requires Inv(d, g) && h in g.chains && g.chains[h].stage.Taken?
    requires |d.info| == |d.used.ring| == NUM && |g.completed| - g.seen <= 2
    ensures h < NUM
    ensures Inv(d.(info := d.info[h := d.info[h].(status := status)],
      used := Ring(Inc(d.used.idx), d.used.ring[Entry(d.used.idx) := h])),
                g.(completed := g.completed + [h], finished := g.finished + {g.chains[h].id},
                   chains := g.chains[h := g.chains[h].(stage := Done(|g.completed|))]))
  {
    hide Owned, Used, Available;
    InRange(d.free, g.owner, g.chains, h);
    OwnedSame(d.free, g.owner, g.chains, h, Done(|g.completed|));
    UsedDone(d.used.idx, d.seenIdx, d.used.ring, g.completed, g.seen, g.chains, h);
    AvailableMoved(d.avail.idx, d.avail.ring, g.submitted, g.taken, g.chains, h, Done(|g.completed|));
    IdsDiffer(d.avail.idx, d.avail.ring, g.submitted, g.taken, g.chains, h);
  }

  lemma IdsDiffer(idx: nat, ring: seq<nat>, submitted: seq<nat>, taken: nat, chains: Chains, h: nat)
    requires Available(idx, ring, submitted, taken, chains) && h in chains
    ensures chains[h].id < |submitted| && forall h' :: h' in chains && h' != h ==> chains[h'].id != chains[h].id
  {
    forall h' | h' in chains && h' != h ensures chains[h'].id != chains[h].id {
      assert submitted[chains[h'].id] == h' && submitted[chains[h].id] == h;
    }
  }

  lemma SeenOne(d: Queue, g: Flight)
    requires Inv(d, g) && d.seenIdx != d.used.idx
    requires |d.info| == |d.used.ring| == NUM && |g.completed| - g.seen <= 2
    ensures g.seen < |g.completed|
    ensures var h := g.completed[g.seen];
      && d.used.ring[Entry(d.seenIdx)] == h && h in g.chains && g.chains[h].stage.Done? && h < NUM
         && d.info[h].b == Some(g.chains[h].buf)
      && (d.info[h].status == 0 ==> Inv(d.(busy := d.busy - {g.chains[h].buf}, seenIdx := Inc(d.seenIdx)),
             g.(seen := g.seen + 1, chains := g.chains[h := g.chains[h].(stage := Seen)])))
  {
    hide Owned, Used, Available;
    IndicesTell(d.used.idx, d.seenIdx, d.used.ring, g.completed, g.seen, g.chains);
    UsedSeen(d.used.idx, d.seenIdx, d.used.ring, g.completed, g.seen, g.chains);
    var h := g.completed[g.seen];
    InRange(d.free, g.owner, g.chains, h);
    OwnedSame(d.free, g.owner, g.chains, h, Seen);
    AvailableMoved(d.avail.idx, d.avail.ring, g.submitted, g.taken, g.chains, h, Seen);
  }

  lemma SeenSoFar(d: Queue, g: Flight)
    requires Inv(d, g)
    ensures g.seen <= |g.completed|
  {
  }

  lemma AllSeen(d: Queue, g: Flight)
    requires Inv(d, g) && d.seenIdx == d.used.idx && |g.completed| - g.seen <= 2
    ensures g.seen == |g.completed| && forall h :: h in g.chains ==> !g.chains[h].stage.Done?
  {
    IndicesTell(d.used.idx, d.seenIdx, d.used.ring, g.completed, g.seen, g.chains);
  }

  lemma ChainFacts(d: Queue, g: Flight, h: nat)
    requires Inv(d, g) && h in g.chains && g.chains[h].buf !in d.busy
    ensures Succeeded(d.info, h)
    ensures |d.free| == |d.desc| == |d.info| == |g.owner| == NUM && h < NUM && g.chains[h].d1 < NUM
      && g.chains[h].d2 < NUM
    ensures var c := g.chains[h];
      && h != c.d1 && h != c.d2 && c.d1 != c.d2 && !d.free[h] && !d.free[c.d1] && !d.free[c.d2]
      && d.desc[h] == Desc(F_NEXT, c.d1) && d.desc[c.d1].flags % 2 == F_NEXT && d.desc[c.d1].next == c.d2
         && d.desc[c.d2].flags % 2 == 0
      && c.stage == Seen && c.id in g.finished
  {
    InRange(d.free, g.owner, g.chains, h);
  }

  lemma Reaped(d: Queue, desc': seq<Desc>, g: Flight, h: nat)
    requires Inv(d, g) && h in g.chains && g.chains[h].stage == Seen
    requires |d.free| == |d.desc| == |d.info| == |g.owner| == NUM == |desc'| && h < NUM && g.chains[h].d1 < NUM
      && g.chains[h].d2 < NUM
    requires forall i :: 0 <= i < NUM && i != h && i != g.chains[h].d1 && i != g.chains[h].d2 ==> desc'[i] == d.desc[i]
    ensures Inv(d.(free := SetThree(d.free, h, g.chains[h], true), desc := desc',
      info := d.info[h := d.info[h].(b := None)]),
                g.(chains := g.chains - {h}, owner := SetThree(g.owner, h, g.chains[h], NUM)))
  {
    hide Owned, Linked, Used, Available, SetThree;
    OwnedWithout(d.free, g.owner, g.chains, h);
    LinkedWithout(d.free, g.owner, d.desc, desc', g.chains, h);
    AvailableWithout(d.avail.idx, d.avail.ring, g.submitted, g.taken, g.chains, h);
    UsedWithout(d.used.idx, d.seenIdx, d.used.ring, g.completed, g.seen, g.chains, h);
  }

  lemma LinkedWithout(free: seq<bool>, owner: seq<nat>, desc: seq<Desc>, desc': seq<Desc>, chains: Chains, h: nat)
    requires Owned(free, owner, chains) && Linked(desc, chains) && h in chains && h < NUM && chains[h].d1 < NUM
      && chains[h].d2 < NUM
    requires |desc'| == NUM && forall i :: 0 <= i < NUM && i != h && i != chains[h].d1 && i != chains[h].d2 ==>
      desc'[i] == desc[i]
    ensures Linked(desc', chains - {h})
  {
    forall h' | h' in chains && h' != h
      ensures h' < NUM && chains[h'].d1 < NUM && chains[h'].d2 < NUM
      ensures desc'[h'] == desc[h'] && desc'[chains[h'].d1] == desc[chains[h'].d1]
        && desc'[chains[h'].d2] == desc[chains[h'].d2]
    {
      InRange(free, owner, chains, h');
      ChainsAreDisjoint(free, owner, chains, h, h');
    }
  }

  // One more request: chain c, headed by h, is the last on the available ring.
  ghost predicate Made(g: Flight, g': Flight, h: nat, c: Chain) {
    && h !in g.chains && c.id == |g.submitted| && c.stage == Queued
    && g' == g.(chains := g.chains[h := c], owner := g'.owner, submitted := g.submitted + [h])
  }

  lemma Sizes(d: Queue, g: Flight)
    requires Inv(d, g)
    ensures |d.free| == |g.owner| == |d.desc| == |d.info| == |d.avail.ring| == |d.used.ring| == NUM
    ensures g.taken <= |g.submitted| && g.seen <= |g.completed|
  {
  }

  lemma StillLinked(d: Queue, desc': seq<Desc>, g: Flight)
    requires Inv(d, g) && |d.free| == |d.desc| == |desc'| == NUM
    requires forall i :: 0 <= i < NUM && !d.free[i] ==> desc'[i] == d.desc[i]
    ensures Inv(d.(desc := desc'), g)
  {
    hide Owned, Linked, Recorded, Busy, Available, Used, Finished, Past;
    LinkedFrame(d.free, g.owner, d.desc, desc', g.chains);
  }

  lemma EnoughFree(free: seq<bool>, a: nat, b: nat, c: nat)
    requires a < |free| && b < |free| && c < |free| && a != b && a != c && b != c && free[a] && free[b] && free[c]
    ensures CountFree(free) >= 3
  {
    CountWith(free, a, false);
    CountWith(free[a := false], b, false);
    CountWith(free[a := false][b := false], c, false);
  }

  lemma ThreeFalse(free: seq<bool>, h: nat, c: Chain)
    requires h < |free| && c.d1 < |free| && c.d2 < |free|
    ensures free[h := false][c.d1 := false][c.d2 := false] == SetThree(free, h, c, false)
  {
  }

  // The three descriptors of a request; the middle one is the data, which the device writes or reads.
  function Filled(desc: seq<Desc>, d0: nat, d1: nat, d2: nat, write: bool): seq<Desc>
    requires d0 < |desc| && d1 < |desc| && d2 < |desc|
  {
    desc[d0 := Desc(F_NEXT, d1)][d1 := Desc((if write then 0 else F_WRITE) + F_NEXT, d2)][d2 := Desc(F_WRITE, 0)]
  }

  lemma FilledAt(desc: seq<Desc>, d0: nat, d1: nat, d2: nat, write: bool)
    requires d0 < |desc| && d1 < |desc| && d2 < |desc| && d0 != d1 && d0 != d2 && d1 != d2
    ensures var f := Filled(desc, d0, d1, d2, write);
      && |f| == |desc| && f[d0] == Desc(F_NEXT, d1) && f[d1].flags % 2 == F_NEXT && f[d1].next == d2
         && f[d2].flags % 2 == 0
      && forall i :: 0 <= i < |desc| && i != d0 && i != d1 && i != d2 ==> f[i] == desc[i]
  {
  }

  lemma LinkedWith(free: seq<bool>, owner: seq<nat>, desc: seq<Desc>, chains: Chains, h: nat, c: Chain, write: bool)
    requires Owned(free, owner, chains) && Linked(desc, chains) && |desc| == NUM
    requires h < NUM && c.d1 < NUM && c.d2 < NUM && h != c.d1 && h != c.d2 && c.d1 != c.d2 && free[h] && free[c.d1]
      && free[c.d2]
    ensures Linked(Filled(desc, h, c.d1, c.d2, write), chains[h := c])
  {
    hide Owned, Filled;
    FilledAt(desc, h, c.d1, c.d2, write);
    LinkedFrame(free, owner, desc, Filled(desc, h, c.d1, c.d2, write), chains);
  }

  lemma Posted(d: Queue, g: Flight, h: nat, c: Chain, write: bool)
    requires Inv(d, g)
    requires c.id == |g.submitted| && c.stage == Queued && |g.submitted| - g.taken <= 2
    requires forall g' :: g' in g.chains ==> g.chains[g'].buf != c.buf
    requires |d.free| == |d.desc| == |d.info| == |d.avail.ring| == |g.owner| == NUM
    requires h < NUM && c.d1 < NUM && c.d2 < NUM && h != c.d1 && h != c.d2 && c.d1 != c.d2 && d.free[h] && d.free[c.d1]
      && d.free[c.d2]
    ensures h !in g.chains
    ensures Inv(d.(free := SetThree(d.free, h, c, false), desc := Filled(d.desc, h, c.d1, c.d2, write),
                   info := d.info[h := Info(Some(c.buf), 0xff)], busy := d.busy + {c.buf},
                   avail := Ring(Inc(d.avail.idx), d.avail.ring[Entry(d.avail.idx) := h])),
                g.(chains := g.chains[h := c], owner := SetThree(g.owner, h, c, h), submitted := g.submitted + [h]))
  {
    hide Owned, Linked, Recorded, Busy, Available, Used, Finished, SetThree, Filled, Inc, Entry;
    NotAHead(d.free, g.owner, g.chains, h);
    OwnedWith(d.free, g.owner, g.chains, h, c);
    LinkedWith(d.free, g.owner, d.desc, g.chains, h, c, write);
    RecordedWith(d.info, g.chains, h, c);
    BusyWith(d.busy, g.chains, h, c);
    FinishedWith(g.finished, g.chains, h, c);
    AvailableWith(d.avail.idx, d.avail.ring, g.submitted, g.taken, g.chains, h, c);
    UsedWith(d.used.idx, d.seenIdx, d.used.ring, g.completed, g.seen, g.chains, h, c);
  }

  lemma RecordedWith(info: seq<Info>, chains: Chains, h: nat, c: Chain)
    requires Recorded(info, chains) && h !in chains && h < NUM && c.stage.Queued? && forall g :: g in chains ==>
      chains[g].buf != c.buf
    ensures Recorded(info[h := Info(Some(c.buf), 0xff)], chains[h := c])
  {
  }

  lemma BusyWith(busy: set<nat>, chains: Chains, h: nat, c: Chain)
    requires Busy(busy, chains) && h !in chains && c.stage.Queued? && forall g :: g in chains ==> chains[g].buf != c.buf
    ensures Busy(busy + {c.buf}, chains[h := c])
  {
  }

  lemma FinishedWith(finished: set<nat>, chains: Chains, h: nat, c: Chain)
    requires Finished(finished, chains) && h !in chains && c.stage.Queued? && c.id !in finished
    ensures Finished(finished, chains[h := c])
  {
  }

  lemma {:induction false} NoneFree(free: seq<bool>)
    requires forall j :: 0 <= j < |free| ==> !free[j]
    ensures CountFree(free) == 0
  {
    if free != [] {
      NoneFree(free[..|free| - 1]);
    }
  }
}
