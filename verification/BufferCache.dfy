/**
 The buffer cache of kernel/bio.c: a fixed set of buffers on a doubly linked
 ring in order of last release, over a disk whose single-block writes are
 atomic.  Every method is one critical section under `bcache.lock` (or one
 step of a buffer's sleep lock), so what each of them keeps holds for every
 interleaving of processes.
 */
module Disk {
  type Word = x: int | 0 <= x < 0x1_0000_0000
  const WORDS_PER_BLOCK: nat := 256   // BSIZE / sizeof(uint)

  type Block = b: seq<Word> | |b| == WORDS_PER_BLOCK witness seq(WORDS_PER_BLOCK, _ => 0)

  datatype BlockId = BlockId(dev: nat, blockno: nat)

  /** What the disk holds; a write replaces the contents of one block. */
  type Image = map<BlockId, Block>
}

module BufferCache {
  import opened Common
  import opened Disk

  // `order` and `pos` are inverse permutations of the buffer numbers.
  ghost predicate Ordered(order: seq<nat>, pos: seq<nat>) {
    && |order| == |pos|
    && (forall k {:trigger order[k]} :: 0 <= k < |order| ==> order[k] < |pos| && pos[order[k]] == k)
    && (forall b {:trigger pos[b]} :: 0 <= b < |pos| ==> pos[b] < |order| && order[pos[b]] == b)
  }

  // The ring links the buffers in that order, with bcache.head (the last index) in front.
  ghost predicate Linked(next: seq<nat>, prev: seq<nat>, order: seq<nat>, pos: seq<nat>)
    requires Ordered(order, pos)
  {
    var n := |order|;
    && |next| == |prev| == n + 1
    && (forall b {:trigger next[b]} :: 0 <= b < n ==> next[b] == if pos[b] + 1 < n then order[pos[b] + 1] else n)
    && (forall b {:trigger prev[b]} :: 0 <= b < n ==> prev[b] == if pos[b] > 0 then order[pos[b] - 1] else n)
    && next[n] == (if n > 0 then order[0] else n)
    && prev[n] == (if n > 0 then order[n - 1] else n)
  }

  // head.next is the most recently released buffer, head.prev the least.
  ghost predicate RecentFirst(pos: seq<nat>, stamp: seq<nat>, clock: nat) {
    && |pos| == |stamp|
    && (forall a, b :: 0 <= a < |pos| && 0 <= b < |pos| && pos[a] < pos[b] ==> stamp[a] > stamp[b])
    && (forall a :: 0 <= a < |pos| ==> stamp[a] < clock)
  }

  ghost predicate Counted(refcnt: seq<nat>, users: seq<nat>, pins: seq<nat>, locked: seq<bool>) {
    && |refcnt| == |users| == |pins| == |locked|
    && forall b :: 0 <= b < |refcnt| ==> refcnt[b] == users[b] + pins[b] && (locked[b] ==> users[b] > 0)
  }

  ghost predicate OneBufferPerBlock(id: seq<BlockId>) {
    forall a, b :: 0 <= a < |id| && 0 <= b < |id| && id[a] == id[b] && id[a].dev != 0 ==> a == b
  }

  // Positions after buffer b has moved to the front.
  ghost function Shifted(pos: seq<nat>, b: nat): seq<nat>
    requires b < |pos|
  {
    seq(|pos|, x requires 0 <= x < |pos| => if x == b then 0 else if pos[x] < pos[b] then pos[x] + 1 else pos[x])
  }

  ghost function Fronted(order: seq<nat>, at: nat): seq<nat>
    requires at < |order|
  {
    [order[at]] + (order[..at] + order[at + 1..])
  }

  lemma FrontedOrder(order: seq<nat>, pos: seq<nat>, b: nat)
    requires Ordered(order, pos) && b < |pos|
    ensures Ordered(Fronted(order, pos[b]), Shifted(pos, b))
  {
    var order', pos' := Fronted(order, pos[b]), Shifted(pos, b);
    forall k | 0 <= k < |order'| ensures order'[k] < |pos'| && pos'[order'[k]] == k {
      assert order'[k] == if k == 0 then b else if k <= pos[b] then order[k - 1] else order[k];
    }
    forall x | 0 <= x < |pos'| ensures pos'[x] < |order'| && order'[pos'[x]] == x {
      assert order[pos[x]] == x;
    }
  }

  lemma FrontedAt(order: seq<nat>, at: nat, k: nat)
    requires at < |order| && k < |order|
    ensures Fronted(order, at)[k] == if k == 0 then order[at] else if k <= at then order[k - 1] else order[k]
  {
  }

  // The pointer updates of brelse: take b out of the ring and put it behind the head.
  ghost predicate Relinked(next: seq<nat>, prev: seq<nat>, b: nat, next': seq<nat>, prev': seq<nat>)
    requires b < |next| == |prev|
  {
    var head := |next| - 1;
    && prev[b] < |next| && next[b] < |next|
    && var out := next[prev[b] := next[b]];
    && out[head] < |next|
    && next' == out[b := out[head]][head := b]
    && prev' == prev[next[b] := prev[b]][b := head][out[head] := b]
  }

  lemma FrontedNext(next: seq<nat>, prev: seq<nat>, order: seq<nat>, pos: seq<nat>, b: nat,
                    next': seq<nat>, prev': seq<nat>, x: nat)
    requires Ordered(order, pos) && Linked(next, prev, order, pos) && b < |pos|
    requires Relinked(next, prev, b, next', prev') && x < |pos|
    ensures var k := Shifted(pos, b)[x];
      next'[x] == if k + 1 < |pos| then Fronted(order, pos[b])[k + 1] else |pos|
  {
    var n, at, k := |pos|, pos[b], Shifted(pos, b)[x];
    if k + 1 < n {
      FrontedAt(order, at, k + 1);
    }
    assert next[b] == if at + 1 < n then order[at + 1] else n;
    assert order[pos[x]] == x;
    if x == b {
      assert prev[b] == n <==> at == 0;
    } else {
      assert x == prev[b] <==> pos[x] + 1 == at;
      assert next'[x] == if x == prev[b] then next[b] else next[x];
    }
  }

  lemma FrontedPrev(next: seq<nat>, prev: seq<nat>, order: seq<nat>, pos: seq<nat>, b: nat,
                    next': seq<nat>, prev': seq<nat>, x: nat)
    requires Ordered(order, pos) && Linked(next, prev, order, pos) && b < |pos|
    requires Relinked(next, prev, b, next', prev') && x < |pos|
    ensures var k := Shifted(pos, b)[x];
      prev'[x] == if k > 0 then Fronted(order, pos[b])[k - 1] else |pos|
  {
    var n, at, k := |pos|, pos[b], Shifted(pos, b)[x];
    if k > 0 {
      FrontedAt(order, at, k - 1);
    }
    var first := next[prev[b] := next[b]][n];
    assert prev[b] == n <==> at == 0;
    assert first == if at > 0 then order[0] else if n > 1 then order[1] else n;
    assert order[pos[x]] == x;
    if x != b {
      assert x == next[b] <==> pos[x] == at + 1;
      assert x == first <==> pos[x] == if at > 0 then 0 else 1;
    }
  }

  lemma FrontedRecent(order: seq<nat>, pos: seq<nat>, stamp: seq<nat>, clock: nat, b: nat)
    requires Ordered(order, pos) && RecentFirst(pos, stamp, clock) && b < |pos|
    ensures RecentFirst(Shifted(pos, b), stamp[b := clock], clock + 1)
  {
    var pos', stamp' := Shifted(pos, b), stamp[b := clock];
    forall x, y | 0 <= x < |pos| && 0 <= y < |pos| && pos'[x] < pos'[y] ensures stamp'[x] > stamp'[y] {
      assert order[pos[x]] == x && order[pos[y]] == y;
      if x != b {
        assert pos[x] < pos[y];
      }
    }
  }

  lemma FrontedHead(next: seq<nat>, prev: seq<nat>, order: seq<nat>, pos: seq<nat>, b: nat,
                    next': seq<nat>, prev': seq<nat>)
    requires Ordered(order, pos) && Linked(next, prev, order, pos) && b < |pos|
    requires Relinked(next, prev, b, next', prev')
    ensures next'[|pos|] == Fronted(order, pos[b])[0]
    ensures prev'[|pos|] == Fronted(order, pos[b])[|pos| - 1]
  {
    var n, at := |pos|, pos[b];
    FrontedAt(order, at, 0);
    FrontedAt(order, at, n - 1);
    assert order[at] == b;
    assert next[b] == n <==> at == n - 1;
    assert prev[b] == n <==> at == 0;
  }

  lemma FrontedLinks(next: seq<nat>, prev: seq<nat>, order: seq<nat>, pos: seq<nat>, b: nat,
                     next': seq<nat>, prev': seq<nat>)
    requires Ordered(order, pos) && Linked(next, prev, order, pos) && b < |pos|
    requires Ordered(Fronted(order, pos[b]), Shifted(pos, b))
    requires Relinked(next, prev, b, next', prev')
    ensures Linked(next', prev', Fronted(order, pos[b]), Shifted(pos, b))
  {
    var n, order', pos' := |pos|, Fronted(order, pos[b]), Shifted(pos, b);
    forall x {:trigger next'[x]} | 0 <= x < n
      ensures next'[x] == if pos'[x] + 1 < n then order'[pos'[x] + 1] else n
    {
      FrontedNext(next, prev, order, pos, b, next', prev', x);
    }
    forall x {:trigger prev'[x]} | 0 <= x < n
      ensures prev'[x] == if pos'[x] > 0 then order'[pos'[x] - 1] else n
    {
      FrontedPrev(next, prev, order, pos, b, next', prev', x);
    }
    FrontedHead(next, prev, order, pos, b, next', prev');
  }

  ghost function Seen(id: seq<BlockId>, valid: seq<bool>, data: seq<Block>, disk: Image, i: BlockId): Block
    requires |id| == |valid| == |data| && i in disk
  {
    if b :| 0 <= b < |id| && id[b] == i && valid[b] then data[b] else disk[i]
  }

  ghost function Downwards(n: nat): seq<nat> {
    seq(n, k requires 0 <= k < n => n - 1 - k)
  }

  /** The loop of binit: put every buffer in at the head of an empty ring. */
  method LinkAll(n: nat) returns (next: seq<nat>, prev: seq<nat>)
    ensures Ordered(Downwards(n), Downwards(n)) && Linked(next, prev, Downwards(n), Downwards(n))
  {
    next, prev := seq(n + 1, _ => n), seq(n + 1, _ => n);
    var b := 0;
    while b < n
      invariant 0 <= b <= n
      invariant |next| == |prev| == n + 1
      invariant next[n] == (if b > 0 then b - 1 else n)
      invariant prev[n] == (if b > 0 then 0 else n)
      invariant forall x :: 0 <= x < b ==> next[x] == if x > 0 then x - 1 else n
      invariant forall x :: 0 <= x < b ==> prev[x] == if x + 1 < b then x + 1 else n
    {
      next := next[b := next[n]];
      prev := prev[b := n];
      prev := prev[next[n] := b];
      next := next[n := b];
      b := b + 1;
    }
  }

  lemma LinksInRange(next: seq<nat>, prev: seq<nat>, order: seq<nat>, pos: seq<nat>, b: nat)
    requires Ordered(order, pos) && Linked(next, prev, order, pos) && b < |pos|
    ensures next[b] <= |pos| && prev[b] <= |pos| && next[|pos|] < |pos| && next[b] != b
    ensures next[prev[b] := next[b]][|pos|] <= |pos|
  {
  }

  // With one buffer per block, the cached copy is the one that is seen.
  lemma SeenCached(id: seq<BlockId>, valid: seq<bool>, data: seq<Block>, disk: Image, b: nat)
    requires |id| == |valid| == |data| && b < |id| && id[b] in disk && valid[b]
    requires OneBufferPerBlock(id) && id[b].dev != 0
    ensures Seen(id, valid, data, disk, id[b]) == data[b]
  {
  }

  // Giving an unused buffer that agrees with the disk to another block changes nothing that is seen.
  lemma SeenRecycled(id: seq<BlockId>, valid: seq<bool>, data: seq<Block>, disk: Image, b: nat, i: BlockId, j: BlockId)
    requires |id| == |valid| == |data| && b < |id| && j in disk && j.dev != 0
    requires OneBufferPerBlock(id) && forall x :: 0 <= x < |id| ==> id[x] != i
    requires valid[b] && id[b].dev != 0 && id[b] in disk ==> data[b] == disk[id[b]]
    ensures Seen(id[b := i], valid[b := false], data, disk, j) == Seen(id, valid, data, disk, j)
  {
    var id', valid' := id[b := i], valid[b := false];
    if x :| 0 <= x < |id'| && id'[x] == j && valid'[x] {
      assert id[x] == j && valid[x];
    } else if x :| 0 <= x < |id| && id[x] == j && valid[x] {
      assert id'[x] != j || !valid'[x];
    }
  }

  class Cache {
    const nbuf: nat
    // The fields of struct buf, one sequence each, indexed by buffer number.
    var id: seq<BlockId>
    var valid: seq<bool>
    var locked: seq<bool>
    var refcnt: seq<nat>
    var data: seq<Block>
    // The ring; index nbuf is bcache.head.
    var next: seq<nat>
    var prev: seq<nat>

    var disk: Image
    // Every image the disk has been through, the last one being `disk`.
    ghost var trace: seq<Image>

    // The ring from head.next on, and where each buffer stands in it.
    ghost var order: seq<nat>
    ghost var pos: seq<nat>
    // When each buffer was last released to zero.
    ghost var stamp: seq<nat>
    ghost var clock: nat
    // refcnt split in processes between bget and brelse, and log pins.
    ghost var users: seq<nat>
    ghost var pins: seq<nat>

    ghost predicate Sized()
      reads this
    {
      && |id| == |valid| == |locked| == |refcnt| == |data| == nbuf
      && |next| == |prev| == nbuf + 1
      && |order| == |pos| == |stamp| == |users| == |pins| == nbuf
    }

    ghost predicate Valid()
      reads this
    {
      && Sized()
      && Ordered(order, pos) && Linked(next, prev, order, pos) && RecentFirst(pos, stamp, clock)
      && Counted(refcnt, users, pins, locked) && OneBufferPerBlock(id)
      && (forall b :: 0 <= b < nbuf && valid[b] ==> id[b] in disk)
      && |trace| > 0 && trace[|trace| - 1] == disk
    }

    // What a reader of block i sees: the cached copy if there is one.
    ghost function View(i: BlockId): Block
      requires Sized() && i in disk
      reads this
    {
      Seen(id, valid, data, disk, i)
    }

    // A buffer nobody refers to agrees with the disk, so recycling loses nothing.
    ghost predicate Clean()
      requires Sized()
      reads this
    {
      forall b :: 0 <= b < nbuf && refcnt[b] == 0 && valid[b] && id[b].dev != 0 && id[b] in disk
        ==> data[b] == disk[id[b]]
    }

    /** binit: link every buffer in at the head of an empty ring. */
    constructor (nbuf: nat, disk: Image)
      ensures Valid() && Clean()
      ensures this.nbuf == nbuf && this.disk == disk && trace == [disk]
      ensures forall b :: 0 <= b < nbuf ==> !valid[b] && !locked[b] && refcnt[b] == 0 && id[b].dev == 0
      ensures forall b :: 0 <= b < nbuf ==> pos[b] == nbuf - 1 - b
    {
      this.nbuf := nbuf;
      this.disk := disk;
      trace := [disk];
      id := seq(nbuf, _ => BlockId(0, 0));
      valid := seq(nbuf, _ => false);
      locked := seq(nbuf, _ => false);
      refcnt := seq(nbuf, _ => 0);
      var zero: Block := seq(WORDS_PER_BLOCK, _ => 0);
      data := seq(nbuf, _ => zero);
      users := seq(nbuf, _ => 0);
      pins := seq(nbuf, _ => 0);
      order, pos := Downwards(nbuf), Downwards(nbuf);
      stamp := seq(nbuf, b requires 0 <= b < nbuf => b);
      clock := nbuf;
      var forward, backward := LinkAll(nbuf);
      next, prev := forward, backward;
    }

    /** The first loop of bget: the buffer for block i, or head if it is not cached. */
    method Find(i: BlockId) returns (b: nat)
      requires Valid()
      ensures b <= nbuf
      ensures b < nbuf ==> id[b] == i
      ensures b == nbuf ==> forall x :: 0 <= x < nbuf ==> id[x] != i
    {
      b := next[nbuf];
      ghost var k := 0;
      while b != nbuf
        invariant 0 <= k <= nbuf
        invariant b == if k < nbuf then order[k] else nbuf
        invariant forall x :: 0 <= x < nbuf && pos[x] < k ==> id[x] != i
        decreases nbuf - k
      {
        if id[b] == i {
          return;
        }
        b := next[b];
        k := k + 1;
      }
    }

    /** The second loop of bget: the unreferenced buffer released longest ago, or head if there is none. */
    method FindVictim() returns (b: nat)
      requires Valid()
      ensures b <= nbuf
      ensures b < nbuf ==> refcnt[b] == 0 && forall x :: 0 <= x < nbuf && refcnt[x] == 0 ==> stamp[b] <= stamp[x]
      ensures b == nbuf ==> forall x :: 0 <= x < nbuf ==> refcnt[x] > 0
    {
      b := prev[nbuf];
      ghost var k: int := nbuf - 1;
      while b != nbuf
        invariant -1 <= k < nbuf
        invariant b == if k >= 0 then order[k] else nbuf
        invariant forall x :: 0 <= x < nbuf && pos[x] > k ==> refcnt[x] > 0
        decreases k + 1
      {
        if refcnt[b] == 0 {
          return;
        }
        b := prev[b];
        k := k - 1;
      }
    }

    /**
     bget up to the sleep lock.  `Some(b)` takes a reference on the buffer that
     caches i, or recycles the least recently released unreferenced one; `None`
     is the panic "bget: no buffers".
     */
    method Get(i: BlockId) returns (r: Option<nat>)
      requires Valid()
      modifies this`id, this`valid, this`refcnt, this`users
      ensures Valid()
      ensures r.Some? ==> r.value < nbuf && id[r.value] == i
      ensures r.Some? ==> refcnt == old(refcnt)[r.value := old(refcnt)[r.value] + 1]
      ensures r.Some? ==> users == old(users)[r.value := old(users)[r.value] + 1]
      ensures r.Some? && old(id[r.value] == i) ==> unchanged(`id) && unchanged(`valid)
      ensures r.Some? && old(id[r.value] != i) ==>
        && (forall x :: 0 <= x < nbuf ==> old(id[x]) != i)
        && old(refcnt[r.value]) == 0
        && (forall x :: 0 <= x < nbuf && old(refcnt[x]) == 0 ==> stamp[r.value] <= stamp[x])
        && id == old(id)[r.value := i]
        && valid == old(valid)[r.value := false]
      ensures r.None? ==> unchanged(this) && forall x :: 0 <= x < nbuf ==> id[x] != i && refcnt[x] > 0
      ensures old(Clean()) ==> Clean() && forall j :: j in disk && j.dev != 0 ==> View(j) == old(View(j))
    {
      hide Ordered, Linked;
      var b := Find(i);
      if b < nbuf {
        refcnt := refcnt[b := refcnt[b] + 1];
        users := users[b := users[b] + 1];
        return Some(b);
      }
      b := FindVictim();
      if b < nbuf {
        Recycle(b, i);
        return Some(b);
      }
      return None;
    }

    method Recycle(b: nat, i: BlockId)
      requires Valid() && b < nbuf && refcnt[b] == 0 && forall x :: 0 <= x < nbuf ==> id[x] != i
      modifies this`id, this`valid, this`refcnt, this`users
      ensures Valid() && id == old(id)[b := i] && valid == old(valid)[b := false]
      ensures refcnt == old(refcnt)[b := 1] && users == old(users)[b := old(users)[b] + 1]
      ensures old(Clean()) ==> Clean() && forall j :: j in disk && j.dev != 0 ==> View(j) == old(View(j))
    {
      hide Ordered, Linked, RecentFirst;
      forall j | j in disk && j.dev != 0 && Clean()
        ensures Seen(id[b := i], valid[b := false], data, disk, j) == View(j)
      {
        SeenRecycled(id, valid, data, disk, b, i, j);
      }
      id := id[b := i];
      valid := valid[b := false];
      refcnt := refcnt[b := 1];
      users := users[b := users[b] + 1];
    }

    /** acquiresleep, for a process that has its reference and finds the lock free. */
    method Lock(b: nat)
      requires Valid() && b < nbuf && users[b] > 0 && !locked[b]
      modifies this`locked
      ensures Valid() && locked == old(locked)[b := true]
    {
      locked := locked[b := true];
    }

    /** The rest of bread: fill the buffer from the disk unless it is valid. */
    method Fill(b: nat)
      requires Valid() && b < nbuf && locked[b] && id[b] in disk
      modifies this`valid, this`data
      ensures Valid()
      ensures valid == old(valid)[b := true]
      ensures data == old(data)[b := old(if valid[b] then data[b] else disk[id[b]])]
      ensures id[b].dev != 0 ==> forall j :: j in disk && j.dev != 0 ==> View(j) == old(View(j))
      ensures id[b].dev != 0 ==> data[b] == View(id[b])
      ensures old(Clean()) ==> Clean()
    {
      if !valid[b] {
        data := data[b := disk[id[b]]];
        valid := valid[b := true];
      }
    }

    /** bread of a block whose buffer, if it has one, is unlocked. */
    method Read(i: BlockId) returns (r: Option<nat>)
      requires Valid() && Clean() && i in disk && i.dev != 0
      requires forall x :: 0 <= x < nbuf && id[x] == i ==> !locked[x]
      modifies this`id, this`valid, this`refcnt, this`users, this`locked, this`data
      ensures Valid() && Clean()
      ensures r.None? ==> unchanged(this) && forall x :: 0 <= x < nbuf ==> id[x] != i && refcnt[x] > 0
      ensures r.Some? ==> r.value < nbuf && id[r.value] == i && valid[r.value]
      ensures r.Some? ==> data[r.value] == old(View(i)) && id == old(id)[r.value := i]
      ensures r.Some? ==> refcnt == old(refcnt)[r.value := old(refcnt)[r.value] + 1]
      ensures r.Some? ==> users == old(users)[r.value := old(users)[r.value] + 1]
      ensures r.Some? ==> locked == old(locked)[r.value := true] && !old(locked[r.value])
      ensures forall j :: j in disk && j.dev != 0 ==> View(j) == old(View(j))
      ensures forall x :: 0 <= x < nbuf && old(refcnt[x]) > 0 ==>
        id[x] == old(id[x]) && (old(valid[x]) ==> valid[x] && data[x] == old(data[x]))
    {
      hide Ordered, Linked, RecentFirst, Seen;
      r := Get(i);
      if r.Some? {
        assert !locked[r.value];
        Lock(r.value);
        Fill(r.value);
      }
    }

    /** A change of b->data by the process that holds the buffer. */
    method Store(b: nat, contents: Block)
      requires Valid() && b < nbuf && locked[b] && valid[b] && id[b].dev != 0
      modifies this`data
      ensures Valid() && data == old(data)[b := contents]
      ensures old(Clean()) ==> Clean()
      ensures forall j :: j in disk && j.dev != 0 ==> View(j) == if j == id[b] then contents else old(View(j))
    {
      data := data[b := contents];
    }

    /** bwrite: one atomic block write.  `false` is the panic for a buffer that is not held. */
    method Write(b: nat) returns (ok: bool)
      requires Valid() && b < nbuf && valid[b] && id[b].dev != 0
      modifies this`disk, this`trace
      ensures Valid() && ok == locked[b]
      ensures ok ==> disk == old(disk)[id[b] := data[b]] && trace == old(trace) + [disk]
      ensures !ok ==> unchanged(this)
      ensures disk.Keys == old(disk).Keys
      ensures forall j :: j in disk && j.dev != 0 ==> View(j) == old(View(j))
      ensures old(Clean()) ==> Clean()
    {
      ok := locked[b];
      if ok {
        disk := disk[id[b] := data[b]];
        trace := trace + [disk];
        forall j | j in disk && j.dev != 0 ensures View(j) == old(View(j)) {
          if j == id[b] {
            assert View(j) == data[b];
          }
        }
      }
    }

    /** The first half of brelse: let go of the sleep lock. */
    method Unlock(b: nat) returns (ok: bool)
      requires Valid() && b < nbuf
      modifies this`locked
      ensures Valid() && ok == old(locked[b]) && locked == old(locked)[b := false]
    {
      ok := locked[b];
      locked := locked[b := false];
    }

    /** The second half of brelse: drop a reference and, at zero, move to the front of the ring. */
    method Drop(b: nat)
      requires Valid() && b < nbuf && users[b] > (if locked[b] then 1 else 0)
      modifies this`refcnt, this`users, this`next, this`prev, this`order, this`pos, this`stamp, this`clock
      ensures Valid()
      ensures refcnt == old(refcnt)[b := old(refcnt)[b] - 1] && users == old(users)[b := old(users)[b] - 1]
      ensures refcnt[b] > 0 ==> unchanged(`next) && unchanged(`prev) && unchanged(`order) && unchanged(`stamp)
      ensures refcnt[b] == 0 ==> next[nbuf] == b
      ensures refcnt[b] == 0 ==> order == old(Fronted(order, pos[b]))
      ensures refcnt[b] == 0 ==> stamp == old(stamp)[b := old(clock)]
      ensures old(Clean()) && (refcnt[b] == 0 && valid[b] && id[b].dev != 0 && id[b] in disk ==> data[b] == disk[id[b]])
        ==> Clean()
    {
      hide Ordered, Linked, RecentFirst;
      refcnt := refcnt[b := refcnt[b] - 1];
      users := users[b := users[b] - 1];
      if refcnt[b] == 0 {
        MoveToFront(b);
      }
    }

    method MoveToFront(b: nat)
      requires Sized() && b < nbuf
      requires Ordered(order, pos) && Linked(next, prev, order, pos) && RecentFirst(pos, stamp, clock)
      modifies this`next, this`prev, this`order, this`pos, this`stamp, this`clock
      ensures Sized()
      ensures Ordered(order, pos) && Linked(next, prev, order, pos) && RecentFirst(pos, stamp, clock)
      ensures next[nbuf] == b
      ensures order == old(Fronted(order, pos[b]))
      ensures stamp == old(stamp)[b := old(clock)]
    {
      hide Ordered, Linked, RecentFirst;
      ghost var next0, prev0 := next, prev;
      LinksInRange(next, prev, order, pos, b);
      prev := prev[next[b] := prev[b]];
      next := next[prev[b] := next[b]];
      next := next[b := next[nbuf]];
      prev := prev[b := nbuf];
      prev := prev[next[nbuf] := b];
      next := next[nbuf := b];
      Moved(next0, prev0, b);
    }

    ghost method Moved(next0: seq<nat>, prev0: seq<nat>, b: nat)
      requires Sized() && b < nbuf
      requires Ordered(order, pos) && Linked(next0, prev0, order, pos) && RecentFirst(pos, stamp, clock)
      requires Relinked(next0, prev0, b, next, prev)
      modifies this`order, this`pos, this`stamp, this`clock
      ensures Sized()
      ensures Ordered(order, pos) && Linked(next, prev, order, pos) && RecentFirst(pos, stamp, clock)
      ensures order == old(Fronted(order, pos[b])) && stamp == old(stamp)[b := old(clock)]
    {
      FrontedOrder(order, pos, b);
      FrontedLinks(next0, prev0, order, pos, b, next, prev);
      FrontedRecent(order, pos, stamp, clock, b);
      order := Fronted(order, pos[b]);
      pos := Shifted(pos, b);
      stamp := stamp[b := clock];
      clock := clock + 1;
    }

    /** bpin and bunpin: the log's own reference on a buffer. */
    method Pin(b: nat)
      requires Valid() && b < nbuf
      modifies this`refcnt, this`pins
      ensures Valid()
      ensures refcnt == old(refcnt)[b := old(refcnt)[b] + 1] && pins == old(pins)[b := old(pins)[b] + 1]
      ensures old(Clean()) ==> Clean()
    {
      refcnt := refcnt[b := refcnt[b] + 1];
      pins := pins[b := pins[b] + 1];
    }

    method Unpin(b: nat)
      requires Valid() && b < nbuf && pins[b] > 0
      modifies this`refcnt, this`pins
      ensures Valid()
      ensures refcnt == old(refcnt)[b := old(refcnt)[b] - 1] && pins == old(pins)[b := old(pins)[b] - 1]
      ensures old(Clean()) && users[b] > 0 ==> Clean()
    {
      refcnt := refcnt[b := refcnt[b] - 1];
      pins := pins[b := pins[b] - 1];
    }

    /** brelse of a held buffer that agrees with the disk or that someone else still refers to. */
    method Release(b: nat)
      requires Valid() && Clean() && b < nbuf && locked[b]
      requires refcnt[b] == 1 && valid[b] && id[b].dev != 0 ==> data[b] == disk[id[b]]
      modifies this`locked, this`refcnt, this`users, this`next, this`prev, this`order, this`pos, this`stamp, this`clock
      ensures Valid() && Clean()
      ensures locked == old(locked)[b := false]
      ensures refcnt == old(refcnt)[b := old(refcnt)[b] - 1] && users == old(users)[b := old(users)[b] - 1]
      ensures if refcnt[b] == 0 then |next| > nbuf && next[nbuf] == b else next == old(next) && prev == old(prev)
    {
      hide Ordered, Linked, RecentFirst, OneBufferPerBlock;
      var held := Unlock(b);
      Drop(b);
    }

    ghost predicate Free(i: BlockId)
      requires Sized()
      reads this
    {
      forall x :: 0 <= x < nbuf && id[x] == i ==> !locked[x]
    }

    // bget finds a buffer for block i.
    ghost predicate Reach(i: BlockId)
      requires Sized()
      reads this
    {
      exists x :: 0 <= x < nbuf && (id[x] == i || refcnt[x] == 0)
    }

    method ReadBoth(first: BlockId, second: BlockId) returns (r: Option<(nat, nat)>)
      requires Valid() && Clean() && first in disk && second in disk && first != second
      requires first.dev != 0 && second.dev != 0 && Free(first) && Free(second)
      modifies this`id, this`valid, this`refcnt, this`users, this`locked, this`data
      ensures old(Roomy(first, second)) ==> r.Some?
      ensures r.Some? ==> old(Reach(first))
      ensures r.Some? ==>
        var (a, b) := r.value;
        && Valid() && Clean() && a < nbuf && b < nbuf && a != b
        && id[a] == first && id[b] == second && valid[a] && valid[b]
        && data[a] == old(View(first)) && data[b] == old(View(second))
        && refcnt == old(refcnt)[a := old(refcnt)[a] + 1][b := old(refcnt)[b] + 1]
        && users == old(users)[a := old(users)[a] + 1][b := old(users)[b] + 1]
        && locked == old(locked)[a := true][b := true] && !old(locked)[a] && !old(locked)[b]
        && (forall i :: i in disk && i.dev != 0 ==> View(i) == old(View(i)))
        && (forall x :: 0 <= x < nbuf && old(refcnt[x]) > 0 ==> id[x] == old(id[x]) && (old(valid[x]) ==> valid[x]))
    {
      hide Ordered, Linked, RecentFirst, Counted, Clean, Seen;
      var a := Read(first);
      if a.None? { return None; }
      assert old(id[a.value] == first || refcnt[a.value] == 0);
      ghost var other := if a.value == 0 then 1 else 0;
      assert nbuf > 1 ==> refcnt[other] == old(refcnt[other]);
      var b := Read(second);
      if b.None? { return None; }
      return Some((a.value, b.value));
    }

    method WriteBack(b: nat, contents: Block)
      requires Valid() && Clean() && b < nbuf && locked[b] && valid[b] && id[b].dev != 0
      modifies this`data, this`disk, this`trace
      ensures Valid() && Clean() && data == old(data)[b := contents]
      ensures disk == old(disk)[id[b] := contents] && trace == old(trace) + [disk]
      ensures forall i :: i in disk && i.dev != 0 ==> View(i) == if i == id[b] then contents else old(View(i))
    {
      hide Ordered, Linked, RecentFirst, Counted;
      Store(b, contents);
      var ok := Write(b);
    }

    /** bread, look, brelse: a read that leaves every reference as it was. */
    method Peek(i: BlockId) returns (r: Option<Block>)
      requires Valid() && Clean() && i in disk && i.dev != 0 && Free(i) && CleanOrReferenced(i)
      modifies this`id, this`valid, this`refcnt, this`users, this`locked, this`data,
               this`next, this`prev, this`order, this`pos, this`stamp, this`clock
      ensures Valid() && Clean()
      ensures r.None? ==> forall x :: 0 <= x < nbuf ==> old(refcnt[x]) > 0
      ensures r.Some? ==> r.value == old(View(i))
      ensures locked == old(locked) && refcnt == old(refcnt)
      ensures forall j :: j in disk && j.dev != 0 ==> View(j) == old(View(j))
    {
      hide Ordered, Linked, RecentFirst, Seen;
      var b := Read(i);
      if b.None? {
        return None;
      }
      r := Some(data[b.value]);
      Release(b.value);
    }

    /** Change a held buffer, write it to disk, release it. */
    method Replace(b: nat, contents: Block)
      requires Valid() && Clean() && b < nbuf && locked[b] && valid[b] && id[b].dev != 0
      modifies this`data, this`disk, this`trace, this`locked, this`refcnt, this`users,
               this`next, this`prev, this`order, this`pos, this`stamp, this`clock
      ensures Valid() && Clean()
      ensures disk == old(disk)[id[b] := contents] && trace == old(trace) + [disk]
      ensures forall i :: i in disk && i.dev != 0 ==> View(i) == if i == id[b] then contents else old(View(i))
      ensures locked == old(locked)[b := false]
      ensures forall x :: 0 <= x < nbuf ==> refcnt[x] == old(refcnt[x]) - (if x == b then 1 else 0)
    {
      assert Sized();
      hide Valid, Clean, Seen;
      WriteBack(b, contents);
      Release(b);
    }

    method ReleaseBoth(a: nat, b: nat)
      requires Valid() && Clean() && a < nbuf && b < nbuf && a != b && locked[a] && locked[b]
      requires refcnt[a] == 1 && valid[a] && id[a].dev != 0 ==> data[a] == disk[id[a]]
      requires refcnt[b] == 1 && valid[b] && id[b].dev != 0 ==> data[b] == disk[id[b]]
      modifies this`locked, this`refcnt, this`users, this`next, this`prev, this`order, this`pos, this`stamp, this`clock
      ensures Valid() && Clean()
      ensures locked == old(locked)[a := false][b := false]
      ensures refcnt == old(refcnt)[a := old(refcnt)[a] - 1][b := old(refcnt)[b] - 1]
    {
      assert Sized() && refcnt[a] > 0 && refcnt[b] > 0;
      hide Valid, Clean;
      Release(a);
      Release(b);
    }

    /** Copy src over dst, write dst to disk, release both. */
    method Overwrite(dst: nat, src: nat)
      requires Valid() && Clean() && dst < nbuf && src < nbuf && dst != src
      requires locked[dst] && locked[src] && valid[dst] && valid[src] && id[dst].dev != 0 && id[src].dev != 0
      requires refcnt[src] == 1 ==> data[src] == disk[id[src]]
      modifies this`data, this`disk, this`trace, this`locked, this`refcnt, this`users,
               this`next, this`prev, this`order, this`pos, this`stamp, this`clock
      ensures Valid() && Clean()
      ensures disk == old(disk)[id[dst] := old(data[src])] && trace == old(trace) + [disk]
      ensures forall i :: i in disk && i.dev != 0 ==> View(i) == if i == id[dst] then old(data[src]) else old(View(i))
      ensures locked == old(locked)[src := false][dst := false]
      ensures refcnt == old(refcnt)[src := old(refcnt)[src] - 1][dst := old(refcnt)[dst] - 1]
    {
      assert id[dst] != id[src] && Sized() && refcnt[src] > 0 && refcnt[dst] > 0;
      hide Valid, Clean, Seen;
      WriteBack(dst, data[src]);
      ReleaseBoth(src, dst);
    }

    /**
     One round of write_log, and of install_trans when `home` is not pinned:
     read both blocks, copy src over dst, write dst, release both.  `false` is
     a panic for want of a buffer.
     */
    method CopyBlock(first: BlockId, second: BlockId, intoFirst: bool) returns (ok: bool)
      requires Valid() && Clean() && first in disk && second in disk && first != second
      requires first.dev != 0 && second.dev != 0 && Free(first) && Free(second)
      requires CleanOrReferenced(if intoFirst then second else first)
      modifies this
      ensures !ok ==> disk == old(disk) && trace == old(trace)
      ensures ok ==>
        var dst, src := if intoFirst then first else second, if intoFirst then second else first;
        && Valid() && Clean()
        && disk == old(disk)[dst := old(View(src))] && trace == old(trace) + [disk]
        && (forall i :: i in disk && i.dev != 0 ==> View(i) == if i == dst then old(View(src)) else old(View(i)))
        && locked == old(locked) && refcnt == old(refcnt) && pins == old(pins)
        && (forall x :: 0 <= x < nbuf && old(refcnt[x]) > 0 ==> id[x] == old(id[x]) && (old(valid[x]) ==> valid[x]))
      ensures old(Roomy(first, second)) ==> ok
      ensures ok ==> old(Reach(first))
    {
      hide Ordered, Linked, RecentFirst, Clean, Seen, Reach, Counted;
      var both := ReadBoth(first, second);
      if both.None? { return false; }
      var (a, b) := both.value;
      if intoFirst {
        Overwrite(a, b);
      } else {
        Overwrite(b, a);
      }
      return true;
    }

    /** One round of install_trans for a pinned home block: the same copy, and the log's reference goes. */
    method InstallPinned(from: BlockId, home: BlockId, ghost p: nat) returns (ok: bool)
      requires Valid() && Clean() && from in disk && home in disk && from != home
      requires from.dev != 0 && home.dev != 0 && Free(from) && Free(home)
      requires View(from) == disk[from]
      requires p < nbuf && id[p] == home && pins[p] > 0
      modifies this
      ensures !ok ==> disk == old(disk) && trace == old(trace)
      ensures ok ==>
        && Valid() && Clean()
        && disk == old(disk)[home := old(View(from))] && trace == old(trace) + [disk]
        && (forall i :: i in disk && i.dev != 0 ==> View(i) == if i == home then old(View(from)) else old(View(i)))
        && locked == old(locked) && old(refcnt)[p] > 0
        && refcnt == old(refcnt)[p := old(refcnt)[p] - 1] && pins == old(pins)[p := old(pins)[p] - 1]
        && (forall x :: 0 <= x < nbuf && old(refcnt[x]) > 0 ==> id[x] == old(id[x]) && (old(valid[x]) ==> valid[x]))
      ensures old(Roomy(from, home)) ==> ok
      ensures ok ==> old(Reach(from))
    {
      hide Ordered, Linked, RecentFirst, Clean, Seen;
      var both := ReadBoth(from, home);
      if both.None? { return false; }
      var (a, b) := both.value;
      assert b == p;
      OverwriteUnpin(b, a);
      return true;
    }

    method OverwriteUnpin(dst: nat, src: nat)
      requires Valid() && Clean() && dst < nbuf && src < nbuf && dst != src
      requires locked[dst] && locked[src] && valid[dst] && valid[src] && id[dst].dev != 0 && id[src].dev != 0
      requires data[src] == disk[id[src]] && pins[dst] > 0
      modifies this`data, this`disk, this`trace, this`locked, this`refcnt, this`users, this`pins,
               this`next, this`prev, this`order, this`pos, this`stamp, this`clock
      ensures Valid() && Clean()
      ensures disk == old(disk)[id[dst] := old(data[src])] && trace == old(trace) + [disk]
      ensures forall i :: i in disk && i.dev != 0 ==> View(i) == if i == id[dst] then old(data[src]) else old(View(i))
      ensures locked == old(locked)[src := false][dst := false]
      ensures forall x :: 0 <= x < nbuf ==>
        refcnt[x] == old(refcnt[x]) - (if x == dst then 2 else if x == src then 1 else 0)
      ensures forall x :: 0 <= x < nbuf ==> pins[x] == old(pins[x]) - (if x == dst then 1 else 0)
    {
      assert id[dst] != id[src] && Sized() && users[dst] > 0;
      hide Valid, Clean, Seen;
      WriteBack(dst, data[src]);
      UnpinAndRelease(dst, src);
    }

    method UnpinAndRelease(dst: nat, src: nat)
      requires Valid() && Clean() && dst < nbuf && src < nbuf && dst != src && locked[dst] && locked[src]
      requires pins[dst] > 0
      requires valid[src] && id[src].dev != 0 ==> data[src] == disk[id[src]]
      requires valid[dst] && id[dst].dev != 0 ==> data[dst] == disk[id[dst]]
      modifies this`locked, this`refcnt, this`users, this`pins,
               this`next, this`prev, this`order, this`pos, this`stamp, this`clock
      ensures Valid() && Clean()
      ensures locked == old(locked)[src := false][dst := false]
      ensures forall x :: 0 <= x < nbuf ==>
        refcnt[x] == old(refcnt[x]) - (if x == dst then 2 else if x == src then 1 else 0)
      ensures forall x :: 0 <= x < nbuf ==> pins[x] == old(pins[x]) - (if x == dst then 1 else 0)
    {
      assert Sized() && users[dst] > 0 && refcnt[dst] > 1;
      hide Valid, Clean;
      Unpin(dst);
      ReleaseBoth(src, dst);
    }

    // Block i reads as the disk has it, or a reference keeps its buffer in place.
    ghost predicate CleanOrReferenced(i: BlockId)
      requires Sized() && i in disk
      reads this
    {
      View(i) == disk[i] || exists b :: 0 <= b < nbuf && id[b] == i && refcnt[b] > 0
    }

    // Two reads in a row cannot run out of buffers.
    ghost predicate Roomy(first: BlockId, second: BlockId)
      requires Sized()
      reads this
    {
      && (exists b :: 0 <= b < nbuf && refcnt[b] == 0)
      && ((exists b :: 0 <= b < nbuf && id[b] == second && refcnt[b] > 0)
         || (nbuf > 1 && forall b :: 0 <= b < nbuf ==> refcnt[b] == 0))
    }
  }
}
