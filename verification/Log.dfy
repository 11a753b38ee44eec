/**
 kernel/log.c as it runs: the in-memory header, the loops over it, and every
 block they move through the buffer cache.  The contracts tie the disk images
 these methods pass through, one per block write, to the crash-step machine
 of CrashRecovery.
 */
module Log {
  import opened Common
  import opened Disk
  import opened BufferCache
  import opened CrashRecovery
  import opened LogSpace

  // `after` extends `before` by the images of the first k writes of a commit.
  ghost predicate CommitTrace(l: Layout, d: Image, homes: seq<Word>, contents: seq<Block>,
                              before: seq<Image>, after: seq<Image>, k: nat)
    requires l.OnDisk(d) && Loggable(l, d, homes) && |contents| == |homes| && k <= 2 * |homes| + 2
  {
    && |after| == |before| + k && after[..|before|] == before
    && forall j :: 0 < j <= k ==> after[|before| + j - 1] == CommitAt(l, d, homes, contents, j)
  }

  ghost predicate RecoveryTrace(l: Layout, d: Image, before: seq<Image>, after: seq<Image>, k: nat)
    requires Recoverable(l, d) && k <= Count(d[l.Header()]) + 1
  {
    && |after| == |before| + k && after[..|before|] == before
    && forall j :: 0 < j <= k ==> after[|before| + j - 1] == RecoveryAt(l, d, j)
  }

  lemma ExtendsLogged(l: Layout, d: Image, homes: seq<Word>, contents: seq<Block>,
                      before: seq<Image>, after: seq<Image>, k: nat, x: Image)
    requires l.OnDisk(d) && Loggable(l, d, homes) && |contents| == |homes| && k < |homes|
    requires CommitTrace(l, d, homes, contents, before, after, k)
    requires x == CommitAt(l, d, homes, contents, k)[l.Slot(k) := contents[k]]
    ensures x == CommitAt(l, d, homes, contents, k + 1)
    ensures CommitTrace(l, d, homes, contents, before, after + [x], k + 1)
  {
    assert contents[..k + 1][..k] == contents[..k];
  }

  lemma ExtendsInstalled(l: Layout, d: Image, before: seq<Image>, after: seq<Image>, k: nat, x: Image)
    requires Recoverable(l, d) && k < Count(d[l.Header()])
    requires RecoveryTrace(l, d, before, after, k)
    requires var now := RecoveryAt(l, d, k);
      l.Slot(k) in now && x == now[l.Home(Homes(d[l.Header()])[k]) := now[l.Slot(k)]]
    ensures x == RecoveryAt(l, d, k + 1)
    ensures RecoveryTrace(l, d, before, after + [x], k + 1)
  {
    PartialKeepsLog(l, d, k);
    var homes := Homes(d[l.Header()]);
    var contents := SlotContents(l, d, |homes|);
    assert homes[..k + 1][..k] == homes[..k] && contents[..k + 1][..k] == contents[..k];
    assert SlotContents(l, RecoveryAt(l, d, k), |homes|)[k] == contents[k];
  }

  // The header write takes a fully logged transaction over the commit point.
  lemma ReachesCommitPoint(l: Layout, d: Image, homes: seq<Word>, contents: seq<Block>,
                           before: seq<Image>, after: seq<Image>, x: Image)
    requires l.OnDisk(d) && Loggable(l, d, homes) && |contents| == |homes|
    requires |after| > 0 && after[|after| - 1] == x
    requires CommitTrace(l, d, homes, contents, before, after[..|after| - 1], |homes|)
    requires var now := CommitAt(l, d, homes, contents, |homes|);
      l.Header() in now && x == now[l.Header() := WithHomes(now[l.Header()], homes)]
    ensures x == CommitAt(l, d, homes, contents, |homes| + 1)
    ensures CommitTrace(l, d, homes, contents, before, after, |homes| + 1)
    ensures Recoverable(l, x) && Homes(x[l.Header()]) == homes
  {
    hide Logged, WithHomes, Recoverable, Updated, Recovered, SlotContents;
    LoggedAt(l, d, contents);
    assert contents[..|homes|] == contents && homes[..0] == [] && contents[..0] == [];
    CommittedRecovers(l, d, homes, contents);
  }

  lemma FollowsRecovery(l: Layout, d: Image, homes: seq<Word>, contents: seq<Block>,
                        before: seq<Image>, mid: seq<Image>, after: seq<Image>, j: nat)
    requires l.OnDisk(d) && Loggable(l, d, homes) && |contents| == |homes| && j <= |homes| + 1
    requires CommitTrace(l, d, homes, contents, before, mid, |homes| + 1)
    requires var c := CommitAt(l, d, homes, contents, |homes| + 1);
      Recoverable(l, c) && Homes(c[l.Header()]) == homes && RecoveryTrace(l, c, mid, after, j)
    ensures CommitTrace(l, d, homes, contents, before, after, |homes| + 1 + j)
  {
    var n := |homes|;
    forall i | 0 < i <= n + 1 + j ensures after[|before| + i - 1] == CommitAt(l, d, homes, contents, i) {
      if i > n + 1 {
        CommitTailIsRecovery(l, d, homes, contents, i);
        assert after[|mid| + (i - n - 1) - 1] == RecoveryAt(l, CommitAt(l, d, homes, contents, n + 1), i - n - 1);
      } else {
        assert after[..|mid|][|before| + i - 1] == mid[|before| + i - 1];
      }
    }
    assert after[..|before|] == after[..|mid|][..|before|];
  }

  lemma RecoveryEnds(l: Layout, d: Image)
    requires Recoverable(l, d)
    ensures RecoveryAt(l, d, Count(d[l.Header()]) + 1) == Recovered(l, d)
  {
  }

  lemma StartsRecovery(l: Layout, d: Image, before: seq<Image>)
    requires Recoverable(l, d)
    ensures RecoveryTrace(l, d, before, before, 0) && RecoveryAt(l, d, 0) == d
  {
    assert Homes(d[l.Header()])[..0] == [];
  }

  lemma NothingCached(id: seq<BlockId>, valid: seq<bool>, data: seq<Block>, disk: Image)
    requires |id| == |valid| == |data| && forall b :: 0 <= b < |valid| ==> !valid[b]
    ensures forall i :: i in disk ==> Seen(id, valid, data, disk, i) == disk[i]
  {
  }

  // The last write of a recovery, and of a commit.
  lemma ClearsHeader(l: Layout, d: Image, before: seq<Image>, after: seq<Image>, x: Image)
    requires Recoverable(l, d)
    requires RecoveryTrace(l, d, before, after, Count(d[l.Header()]))
    requires var now := RecoveryAt(l, d, Count(d[l.Header()]));
      l.Header() in now && x == now[l.Header() := WithHomes(now[l.Header()], [])]
    ensures x == Recovered(l, d)
    ensures RecoveryTrace(l, d, before, after + [x], Count(d[l.Header()]) + 1)
  {
    var homes := Homes(d[l.Header()]);
    PartialKeepsLog(l, d, |homes|);
    assert homes[..|homes|] == homes && SlotContents(l, d, |homes|)[..|homes|] == SlotContents(l, d, |homes|);
  }

  // The homes from the t-th on are cached in the buffers `slot`, each pinned once, and nothing else is pinned.
  ghost predicate Pins(l: Layout, homes: seq<Word>, slot: seq<nat>,
                       id: seq<BlockId>, valid: seq<bool>, pins: seq<nat>, t: nat)
    requires |id| == |valid| == |pins| && t <= |homes|
  {
    && |slot| == |homes|
    && (forall u :: t <= u < |homes| ==> slot[u] < |id| && id[slot[u]] == l.Home(homes[u]) && valid[slot[u]])
    && forall b :: 0 <= b < |id| ==> pins[b] == if b in slot[t..] then 1 else 0
  }

  lemma PinsKept(l: Layout, homes: seq<Word>, slot: seq<nat>, pins: seq<nat>, t: nat,
                 id: seq<BlockId>, valid: seq<bool>, id': seq<BlockId>, valid': seq<bool>)
    requires |id| == |valid| == |pins| == |id'| == |valid'| && t <= |homes|
    requires Pins(l, homes, slot, id, valid, pins, t)
    requires forall x :: 0 <= x < |id| && pins[x] > 0 ==> id'[x] == id[x] && (valid[x] ==> valid'[x])
    ensures Pins(l, homes, slot, id', valid', pins, t)
  {
    forall u | t <= u < |homes| ensures id'[slot[u]] == l.Home(homes[u]) && valid'[slot[u]] {
      assert slot[t..][u - t] == slot[u];
    }
  }

  lemma PinnedAt(l: Layout, homes: seq<Word>, slot: seq<nat>, id: seq<BlockId>, valid: seq<bool>, pins: seq<nat>,
                 t: nat)
    requires |id| == |valid| == |pins| && t < |homes| && Pins(l, homes, slot, id, valid, pins, t)
    ensures |slot| == |homes| && slot[t] < |id| && id[slot[t]] == l.Home(homes[t]) && valid[slot[t]]
      && pins[slot[t]] == 1
  {
    assert slot[t..][0] == slot[t];
  }

  // One home block less is pinned.
  lemma PinsInstalled(l: Layout, homes: seq<Word>, slot: seq<nat>, id: seq<BlockId>, valid: seq<bool>, pins: seq<nat>,
                      t: nat,
                      id': seq<BlockId>, valid': seq<bool>)
    requires |id| == |valid| == |pins| == |id'| == |valid'| && t < |homes| && Distinct(homes)
    requires Pins(l, homes, slot, id, valid, pins, t) && slot[t] < |pins|
    requires forall x :: 0 <= x < |id| && pins[x] > 0 ==> id'[x] == id[x] && (valid[x] ==> valid'[x])
    ensures Pins(l, homes, slot, id', valid', pins[slot[t] := 0], t + 1)
  {
    PinsKept(l, homes, slot, pins, t, id, valid, id', valid');
    assert slot[t..] == [slot[t]] + slot[t + 1..];
    forall u | t < u < |homes| ensures slot[u] != slot[t] {
      assert id[slot[u]] == l.Home(homes[u]) && id[slot[t]] == l.Home(homes[t]);
    }
  }

  ghost predicate Unpinned(pins: seq<nat>) {
    forall b :: 0 <= b < |pins| ==> pins[b] == 0
  }

  lemma PinsDone(l: Layout, homes: seq<Word>, slot: seq<nat>, id: seq<BlockId>, valid: seq<bool>, pins: seq<nat>)
    requires |id| == |valid| == |pins| && Pins(l, homes, slot, id, valid, pins, |homes|)
    ensures Unpinned(pins)
  {
  }

  ghost function SeenAll(id: seq<BlockId>, valid: seq<bool>, data: seq<Block>, disk: Image,
                         l: Layout, homes: seq<Word>): (s: seq<Block>)
    requires |id| == |valid| == |data| && forall t :: 0 <= t < |homes| ==> l.Home(homes[t]) in disk
    ensures |s| == |homes|
    ensures forall t :: 0 <= t < |homes| ==> s[t] == Seen(id, valid, data, disk, l.Home(homes[t]))
  {
    seq(|homes|, t requires 0 <= t < |homes| => Seen(id, valid, data, disk, l.Home(homes[t])))
  }

  class Log {
    const cache: Cache
    const layout: Layout
    var n: nat               // log.lh.n
    var block: seq<Word>     // log.lh.block
    var outstanding: int
    var committing: bool
    // The buffer that log_write pinned for each logged block.
    ghost var slot: seq<nat>

    ghost predicate Shape()
      reads this, cache
    {
      && cache.Valid() && cache.Clean()
      && layout.dev != 0 && layout.OnDisk(cache.disk)
      && |block| == LOGSIZE && n <= LOGSIZE && Loggable(layout, cache.disk, block[..n])
      && (forall i :: i in cache.disk && layout.Inside(i) ==> cache.View(i) == cache.disk[i])
    }

    // Logged blocks from the t-th on stay cached until they are installed.
    ghost predicate PinnedFrom(t: nat)
      requires cache.Sized() && |block| == LOGSIZE && n <= LOGSIZE
      reads this, cache
    {
      t <= n && Pins(layout, block[..n], slot, cache.id, cache.valid, cache.pins, t)
    }

    // No other process holds a log block or a logged block.
    ghost predicate Unheld()
      requires cache.Sized() && |block| == LOGSIZE && n <= LOGSIZE
      reads this, cache
    {
      forall b :: 0 <= b < cache.nbuf && cache.locked[b] ==>
        !layout.Inside(cache.id[b]) && (cache.id[b].dev != layout.dev || cache.id[b].blockno !in block[..n])
    }

    /** initlog up to the recovery. */
    constructor (cache: Cache, layout: Layout)
      ensures this.cache == cache && this.layout == layout && n == 0 && |block| == LOGSIZE && slot == []
      ensures outstanding == 0 && !committing
    {
      this.cache, this.layout := cache, layout;
      n, block, outstanding, committing := 0, seq(LOGSIZE, _ => 0), 0, false;
      slot := [];
    }

    // The contents the cache has for the logged blocks.
    ghost function Pending(): (s: seq<Block>)
      requires Shape()
      reads this, cache
      ensures |s| == n
    {
      SeenAll(cache.id, cache.valid, cache.data, cache.disk, layout, block[..n])
    }

    ghost predicate Ready(t: nat)
      reads this, cache
    {
      Shape() && PinnedFrom(t) && Unheld()
    }

    // A buffer is left to read log blocks into.
    ghost predicate Spare()
      reads this, cache
    {
      exists b :: 0 <= b < |cache.refcnt| && cache.refcnt[b] == 0
    }

    // Every held buffer is still held and has the block it had.
    twostate predicate KeepsHeld()
      reads this, cache
    {
      && |cache.id| == |cache.valid| == old(|cache.id|) == old(|cache.valid|) == old(|cache.refcnt|)
      && cache.locked == old(cache.locked)
      && forall x :: 0 <= x < |cache.id| && old(cache.refcnt[x]) > 0 ==>
        cache.id[x] == old(cache.id[x]) && (old(cache.valid[x]) ==> cache.valid[x])
    }

    twostate predicate SameUse()
      reads this, cache
    {
      cache.users == old(cache.users) && cache.locked == old(cache.locked)
    }

    /** One round of write_log: copy a logged block from the cache to its log slot. */
    method LogOne(t: nat) returns (ok: bool)
      requires Open() && t < n && cache.Free(layout.Slot(t)) && cache.Free(layout.Home(block[t]))
      modifies cache
      ensures ok ==> Open() && KeepsHeld() && SameUse() && (old(Unheld()) ==> Unheld())
      ensures ok ==> cache.disk == old(cache.disk)[layout.Slot(t) := old(cache.View(layout.Home(block[t])))]
      ensures ok ==> cache.trace == old(cache.trace) + [cache.disk]
      ensures ok ==> cache.refcnt == old(cache.refcnt) && cache.pins == old(cache.pins) && Pending() == old(Pending())
      ensures ok ==> forall i :: i in cache.disk && i.dev != 0 ==>
        cache.View(i) == if i == layout.Slot(t) then cache.disk[i] else old(cache.View(i))
      ensures !ok ==> cache.disk == old(cache.disk) && cache.trace == old(cache.trace)
      ensures old(Spare()) ==> ok
      ensures ok ==> old(cache.Reach(layout.Slot(t)))
    {
      hide Ordered, Linked, RecentFirst, Seen;
      assert block[..n][t] == block[t];
      assert layout.Inside(layout.Slot(t)) && layout.Slot(t) in cache.disk;
      assert cache.id[slot[t]] == layout.Home(block[t]) && cache.refcnt[slot[t]] > 0;
      ok := cache.CopyBlock(layout.Slot(t), layout.Home(block[t]), true);
    }

    /** write_log.  `k` of the commit's block writes are done, all of the first n unless a buffer ran out. */
    method WriteLog() returns (ok: bool, ghost k: nat)
      requires Ready(0)
      modifies cache
      ensures ok ==> Ready(0) && SameUse() && k == n && Pending() == old(Pending()) && cache.refcnt == old(cache.refcnt)
      ensures k <= n && CommitTrace(layout, old(cache.disk), block[..n], old(Pending()), old(cache.trace), cache.trace,
        k)
      ensures cache.disk == CommitAt(layout, old(cache.disk), block[..n], old(Pending()), k)
      ensures old(Spare()) ==> ok
    {
      ghost var d, homes, contents, before := cache.disk, block[..n], Pending(), cache.trace;
      k := 0;
      assert layout.OnDisk(d) && Loggable(layout, d, homes) && contents[..0] == [];
      var tail := 0;
      while tail < n
        invariant tail <= n && k == tail && Ready(0) && SameUse() && Pending() == contents
          && cache.refcnt == old(cache.refcnt)
        invariant CommitTrace(layout, d, homes, contents, before, cache.trace, k)
        invariant cache.disk == CommitAt(layout, d, homes, contents, k)
      {
        hide Shape, PinnedFrom, Unheld, Seen, CommitAt, CommitTrace, Loggable, Layout.OnDisk;
        ok := LogOne(tail);
        if !ok {
          return;
        }
        ExtendsLogged(layout, d, homes, contents, before, cache.trace[..|cache.trace| - 1], tail, cache.disk);
        tail := tail + 1;
        k := k + 1;
      }
      ok := true;
    }

    /** write_head: the in-memory header over the block on disk, in one block write. */
    method WriteHead() returns (ok: bool)
      requires Shape() && cache.Free(layout.Header())
      modifies cache
      ensures ok ==>
        Shape() && KeepsHeld() && SameUse() && (old(Unheld()) ==> Unheld()) && (old(PinnedFrom(0)) ==> PinnedFrom(0))
      ensures ok ==>
        cache.disk == old(cache.disk)[layout.Header() := WithHomes(old(cache.disk)[layout.Header()], block[..n])]
      ensures ok ==> cache.trace == old(cache.trace) + [cache.disk]
      ensures ok ==> cache.refcnt == old(cache.refcnt) && cache.pins == old(cache.pins) && Pending() == old(Pending())
      ensures ok ==> forall i :: i in cache.disk && i.dev != 0 ==>
        cache.View(i) == if i == layout.Header() then cache.disk[i] else old(cache.View(i))
      ensures !ok ==> cache.disk == old(cache.disk) && cache.trace == old(cache.trace)
      ensures old(Spare()) ==> ok
      ensures ok ==> old(cache.Reach(layout.Header()))
    {
      hide Ordered, Linked, RecentFirst, Seen, OneBufferPerBlock, Cache.Clean, Pins;
      assert layout.Inside(layout.Header());
      ghost var id, valid := cache.id, cache.valid;
      ok := PutHead();
      if ok && old(PinnedFrom(0)) {
        PinsKept(layout, block[..n], slot, cache.pins, 0, id, valid, cache.id, cache.valid);
      }
    }

    // write_head as the cache sees it.
    method PutHead() returns (ok: bool)
      requires cache.Valid() && cache.Clean() && n <= LOGSIZE == |block|
      requires layout.dev != 0 && layout.Header() in cache.disk && cache.Free(layout.Header())
      modifies cache
      ensures ok ==> cache.Valid() && cache.Clean()
      ensures ok ==>
        cache.disk == old(cache.disk)[layout.Header() := WithHomes(old(cache.View(layout.Header())), block[..n])]
      ensures ok ==> cache.trace == old(cache.trace) + [cache.disk]
      ensures ok ==>
        cache.locked == old(cache.locked) && cache.refcnt == old(cache.refcnt) && cache.pins == old(cache.pins)
      ensures ok ==> forall x :: 0 <= x < cache.nbuf && old(cache.refcnt[x]) > 0 ==>
        cache.id[x] == old(cache.id[x]) && (old(cache.valid[x]) ==> cache.valid[x])
      ensures ok ==> forall i :: i in cache.disk && i.dev != 0 ==>
        cache.View(i) == if i == layout.Header() then cache.disk[i] else old(cache.View(i))
      ensures !ok ==> cache.disk == old(cache.disk) && cache.trace == old(cache.trace)
      ensures old(Spare()) ==> ok
      ensures ok ==> old(cache.Reach(layout.Header()))
    {
      hide Ordered, Linked, RecentFirst, Counted, OneBufferPerBlock, Seen, Cache.Clean;
      var buf := cache.Read(layout.Header());
      if buf.None? {
        return false;
      }
      assert old(cache.id[buf.value] == layout.Header() || cache.refcnt[buf.value] == 0);
      var hb := FillHeader(cache.data[buf.value], n, block);
      cache.Replace(buf.value, hb);
      ok := true;
    }

    // What install_trans works on: pinned home blocks, or at boot none pinned at all.
    ghost predicate InstallReady(t: nat, recovering: bool)
      reads this, cache
    {
      && Shape() && Unheld()
      && if recovering then t <= n && Unpinned(cache.pins) else PinnedFrom(t)
    }

    ghost predicate InstallSpare(recovering: bool)
      reads this, cache
    {
      && Spare()
      && (recovering ==> cache.nbuf > 1 && forall b :: 0 <= b < |cache.refcnt| ==> cache.refcnt[b] == 0)
    }

    lemma AllInstalled(recovering: bool)
      requires InstallReady(n, recovering)
      ensures Shape() && Unheld() && cache.Free(layout.Header()) && Unpinned(cache.pins)
    {
      assert layout.Inside(layout.Header());
      if !recovering {
        PinsDone(layout, block[..n], slot, cache.id, cache.valid, cache.pins);
      }
    }

    /** One round of install_trans(1): copy a log slot to its home block. */
    method InstallAtBoot(t: nat) returns (ok: bool)
      requires InstallReady(t, true) && t < n
      modifies cache
      ensures ok ==> InstallReady(t + 1, true) && SameUse()
      ensures ok ==> cache.disk == old(cache.disk)[layout.Home(block[t]) := old(cache.disk)[layout.Slot(t)]]
      ensures ok ==> cache.trace == old(cache.trace) + [cache.disk]
      ensures ok ==> forall i :: i in cache.disk && i.dev != 0 ==>
        cache.View(i) == if i == layout.Home(block[t]) then old(cache.disk)[layout.Slot(t)] else old(cache.View(i))
      ensures !ok ==> cache.disk == old(cache.disk) && cache.trace == old(cache.trace)
      ensures ok && old(InstallSpare(true)) ==> InstallSpare(true)
      ensures old(InstallSpare(true)) ==> ok
    {
      hide Ordered, Linked, RecentFirst, Seen;
      assert block[..n][t] == block[t];
      assert layout.Inside(layout.Slot(t)) && layout.Slot(t) in cache.disk;
      ok := cache.CopyBlock(layout.Slot(t), layout.Home(block[t]), false);
    }

    /** One round of install_trans(0): the same, and the home block is unpinned. */
    method InstallAtCommit(t: nat) returns (ok: bool)
      requires Shape() && PinnedFrom(t) && t < n && cache.Free(layout.Slot(t)) && cache.Free(layout.Home(block[t]))
      modifies cache
      ensures ok ==> Shape() && PinnedFrom(t + 1) && KeepsHeld() && SameUse() && (old(Unheld()) ==> Unheld())
      ensures ok ==> cache.disk == old(cache.disk)[layout.Home(block[t]) := old(cache.disk)[layout.Slot(t)]]
      ensures ok ==> cache.trace == old(cache.trace) + [cache.disk]
      ensures ok ==> forall i :: i in cache.disk && i.dev != 0 ==>
        cache.View(i) == if i == layout.Home(block[t]) then old(cache.disk)[layout.Slot(t)] else old(cache.View(i))
      ensures !ok ==> cache.disk == old(cache.disk) && cache.trace == old(cache.trace)
      ensures ok && old(InstallSpare(false)) ==> InstallSpare(false)
      ensures old(InstallSpare(false)) ==> ok
      ensures ok ==> old(cache.Reach(layout.Slot(t)))
    {
      hide Ordered, Linked, RecentFirst, Seen, Pins, OneBufferPerBlock, Cache.Clean;
      ghost var homes, id, valid, pins := block[..n], cache.id, cache.valid, cache.pins;
      assert homes[t] == block[t];
      assert layout.Inside(layout.Slot(t)) && layout.Slot(t) in cache.disk;
      PinnedAt(layout, homes, slot, id, valid, pins, t);
      ok := cache.InstallPinned(layout.Slot(t), layout.Home(block[t]), slot[t]);
      if ok {
        PinsInstalled(layout, homes, slot, id, valid, pins, t, cache.id, cache.valid);
      }
    }

    // One round of install_trans, of either kind.
    method InstallOne(t: nat, recovering: bool) returns (ok: bool)
      requires InstallReady(t, recovering) && t < n
      modifies cache
      ensures ok ==> InstallReady(t + 1, recovering) && SameUse()
      ensures layout.Slot(t) in old(cache.disk)
      ensures ok ==> cache.disk == old(cache.disk)[layout.Home(block[t]) := old(cache.disk)[layout.Slot(t)]]
      ensures ok ==> cache.trace == old(cache.trace) + [cache.disk]
      ensures !ok ==> cache.disk == old(cache.disk) && cache.trace == old(cache.trace)
      ensures ok && old(InstallSpare(recovering)) ==> InstallSpare(recovering)
      ensures old(InstallSpare(recovering)) ==> ok
    {
      hide Seen, Pins, Cache.Valid, Cache.Clean, InstallSpare;
      if recovering {
        ok := InstallAtBoot(t);
      } else {
        assert block[..n][t] == block[t] && layout.Inside(layout.Slot(t));
        InstallFree(t);
        ok := InstallAtCommit(t);
      }
    }

    lemma InstallFree(t: nat)
      requires InstallReady(t, false) && t < n
      ensures cache.Sized() && cache.Free(layout.Slot(t)) && cache.Free(layout.Home(block[t]))
    {
      assert block[..n][t] == block[t] && layout.Inside(layout.Slot(t));
    }

    /** install_trans: from a written header to every home block in place. */
    method InstallTrans(recovering: bool) returns (ok: bool, ghost k: nat)
      requires InstallReady(0, recovering)
      requires Recoverable(layout, cache.disk) && Homes(cache.disk[layout.Header()]) == block[..n]
      modifies cache
      ensures k <= n && RecoveryTrace(layout, old(cache.disk), old(cache.trace), cache.trace, k)
      ensures cache.disk == RecoveryAt(layout, old(cache.disk), k)
      ensures ok ==> k == n && InstallReady(n, recovering) && SameUse()
      ensures ok && old(InstallSpare(recovering)) ==> InstallSpare(recovering)
      ensures old(InstallSpare(recovering)) ==> ok
    {
      hide InstallSpare, RecoveryAt, RecoveryTrace, Recoverable, Loggable, Seen, Pins, Cache.Valid, Cache.Clean;
      ghost var d, before := cache.disk, cache.trace;
      k := 0;
      StartsRecovery(layout, d, before);
      var tail := 0;
      while tail < n
        invariant tail <= n && k == tail && InstallReady(tail, recovering) && SameUse()
        invariant RecoveryTrace(layout, d, before, cache.trace, k)
        invariant cache.disk == RecoveryAt(layout, d, k)
        invariant old(InstallSpare(recovering)) ==> InstallSpare(recovering)
      {
        ghost var seen := cache.trace;
        ok := InstallOne(tail, recovering);
        if !ok {
          return;
        }
        ExtendsInstalled(layout, d, before, seen, tail, cache.disk);
        tail := tail + 1;
        k := k + 1;
      }
      ok := true;
    }

    // Between transactions: an empty log, in memory and on disk, and no pins.
    ghost predicate Idle()
      reads this, cache
    {
      Ready(0) && n == 0 && Recoverable(layout, cache.disk) && Count(cache.disk[layout.Header()]) == 0
    }

    /** The first half of commit: log the blocks, then the header, the real commit. */
    method Publish() returns (ok: bool, ghost k: nat)
      requires Ready(0)
      modifies cache
      ensures k <= n + 1
      ensures CommitTrace(layout, old(cache.disk), block[..n], old(Pending()), old(cache.trace), cache.trace, k)
      ensures ok ==> k == n + 1 && Ready(0) && SameUse()
      ensures ok ==> cache.disk == CommitAt(layout, old(cache.disk), block[..n], old(Pending()), n + 1)
      ensures ok ==> Recoverable(layout, cache.disk) && Homes(cache.disk[layout.Header()]) == block[..n]
      ensures old(Spare()) ==> ok && Spare()
    {
      ghost var d, homes, contents, before := cache.disk, block[..n], Pending(), cache.trace;
      assert layout.OnDisk(d) && Loggable(layout, d, homes);
      ok, k := WriteLog();
      if !ok { return; }
      hide Seen, CommitAt, CommitTrace, Layout.OnDisk, Ordered, Linked, RecentFirst, Loggable, Pins;
      ok := WriteHead();
      if !ok { return; }
      ReachesCommitPoint(layout, d, homes, contents, before, cache.trace, cache.disk);
      k := k + 1;
    }

    /** The second half: install the blocks, then erase the transaction. */
    method Finish() returns (ok: bool, ghost k: nat)
      requires Ready(0) && Recoverable(layout, cache.disk) && Homes(cache.disk[layout.Header()]) == block[..n]
      modifies this`n, this`slot, cache
      ensures k <= old(n) + 1
      ensures RecoveryTrace(layout, old(cache.disk), old(cache.trace), cache.trace, k)
      ensures ok ==> k == old(n) + 1 && Idle() && SameUse() && cache.disk == Recovered(layout, old(cache.disk))
      ensures old(Spare()) ==> ok
    {
      ghost var d, before := cache.disk, cache.trace;
      ok, k := InstallTrans(false);
      if !ok { return; }
      ghost var after := cache.trace;
      hide InstallReady, Idle, Seen, RecoveryTrace, RecoveryAt;
      ok := Erase();
      if !ok { return; }
      ClearsHeader(layout, d, before, after, cache.disk);
      k := k + 1;
      RecoveryIdempotent(layout, d);
    }

    /** log.lh.n = 0 and write_head: the end of commit and of recover_from_log. */
    method Erase() returns (ok: bool)
      requires Shape() && cache.Free(layout.Header()) && Unpinned(cache.pins)
      modifies this`n, this`slot, cache
      ensures ok ==>
        n == 0 && slot == [] && Open() && KeepsHeld() && SameUse() && (old(Unheld()) ==> Unheld())
          && Recoverable(layout, cache.disk) && Count(cache.disk[layout.Header()]) == 0
      ensures ok ==> cache.disk == old(cache.disk)[layout.Header() := WithHomes(old(cache.disk)[layout.Header()], [])]
      ensures ok ==> cache.trace == old(cache.trace) + [cache.disk]
      ensures ok ==> cache.refcnt == old(cache.refcnt) && cache.pins == old(cache.pins)
      ensures ok ==> forall i :: i in cache.disk && i.dev != 0 ==>
        cache.View(i) == if i == layout.Header() then cache.disk[i] else old(cache.View(i))
      ensures !ok ==> cache.disk == old(cache.disk) && cache.trace == old(cache.trace)
      ensures old(Spare()) ==> ok
      ensures ok ==> old(cache.Reach(layout.Header()))
    {
      n, slot := 0, [];
      assert block[..n] == [];
      hide Seen, Ordered, Linked, RecentFirst, OneBufferPerBlock, Cache.Clean, Counted;
      ok := WriteHead();
    }

    /**
     commit.  The disk goes through the images of CommitAt one by one, and if
     it stops for want of a buffer it stops after some k of them.
     */
    method Commit() returns (ok: bool, ghost k: nat)
      requires Ready(0) && Recoverable(layout, cache.disk) && Count(cache.disk[layout.Header()]) == 0
      modifies this`n, this`slot, cache
      ensures old(n) == 0 ==> ok && k == 0
      ensures k <= 2 * old(n) + 2
      ensures CommitTrace(layout, old(cache.disk), old(block[..n]), old(Pending()), old(cache.trace), cache.trace, k)
      ensures ok ==> Idle() && SameUse()
      ensures ok && old(n) > 0 ==> k == 2 * old(n) + 2
      ensures ok && old(n) > 0 ==>
        cache.disk == CommitAt(layout, old(cache.disk), old(block[..n]), old(Pending()), 2 * old(n) + 2)
      ensures ok ==> Updated(layout, old(cache.disk), cache.disk, old(block[..n]), old(Pending()))
      ensures old(Spare()) ==> ok
    {
      ok, k := true, 0;
      if n > 0 {
        ok, k := CommitBlocks();
      }
    }

    method CommitBlocks() returns (ok: bool, ghost k: nat)
      requires Ready(0) && Recoverable(layout, cache.disk) && n > 0
      modifies this`n, this`slot, cache
      ensures k <= 2 * old(n) + 2
      ensures CommitTrace(layout, old(cache.disk), old(block[..n]), old(Pending()), old(cache.trace), cache.trace, k)
      ensures ok ==> Idle() && SameUse() && k == 2 * old(n) + 2
      ensures ok ==> cache.disk == CommitAt(layout, old(cache.disk), old(block[..n]), old(Pending()), 2 * old(n) + 2)
      ensures ok ==> Updated(layout, old(cache.disk), cache.disk, old(block[..n]), old(Pending()))
      ensures old(Spare()) ==> ok
    {
      hide Idle, Seen, CommitAt, CommitTrace, RecoveryTrace, RecoveryAt, Recovered, Recoverable, Loggable, Updated,
        WithHomes,
        Pins, Cache.Clean, Ordered, Linked, RecentFirst, OneBufferPerBlock;
      ghost var d, homes, contents, before := cache.disk, block[..n], Pending(), cache.trace;
      ok, k := Publish();
      if !ok { return; }
      ghost var mid := cache.trace;
      ghost var j: nat;
      ok, j := Finish();
      FollowsRecovery(layout, d, homes, contents, before, mid, cache.trace, j);
      k := k + j;
      if !ok { return; }
      CommitTailIsRecovery(layout, d, homes, contents, 2 * |homes| + 2);
      CommitCompletes(layout, d, homes, contents);
      RecoveryEnds(layout, CommitAt(layout, d, homes, contents, |homes| + 1));
    }

    // A cold start on a disk some earlier run left behind.
    ghost predicate Booted()
      reads this, cache
    {
      && cache.Valid() && cache.Clean() && layout.dev != 0 && |block| == LOGSIZE && Recoverable(layout, cache.disk)
      && forall b :: 0 <= b < cache.nbuf ==> !cache.valid[b] && !cache.locked[b] && cache.refcnt[b] == 0
    }

    /** read_head. */
    method ReadHead() returns (ok: bool)
      requires Booted()
      modifies this`n, this`block, cache
      ensures cache.disk == old(cache.disk) && cache.trace == old(cache.trace)
      ensures ok ==>
        InstallReady(0, true) && n == Count(cache.disk[layout.Header()])
          && block[..n] == Homes(cache.disk[layout.Header()])
      ensures ok && cache.nbuf > 1 ==> InstallSpare(true)
      ensures cache.nbuf > 0 ==> ok
    {
      hide Ordered, Linked, RecentFirst, Seen, OneBufferPerBlock;
      assert layout.Inside(layout.Header());
      assert cache.nbuf > 0 ==> cache.refcnt[0] == 0;
      NothingCached(cache.id, cache.valid, cache.data, cache.disk);
      var h := cache.Peek(layout.Header());
      if h.None? {
        return false;
      }
      n, block := TakeHeader(h.value, block);
      ok := true;
    }

    /** recover_from_log: install what the header says, then clear it. */
    method RecoverFromLog() returns (ok: bool, ghost k: nat)
      requires Booted()
      modifies this`n, this`block, this`slot, cache
      ensures k <= Count(old(cache.disk)[layout.Header()]) + 1
      ensures RecoveryTrace(layout, old(cache.disk), old(cache.trace), cache.trace, k)
      ensures ok ==> k == Count(old(cache.disk)[layout.Header()]) + 1
      ensures ok ==> Idle() && cache.disk == Recovered(layout, old(cache.disk))
      ensures cache.nbuf > 1 ==> ok && forall b :: 0 <= b < |cache.refcnt| ==> cache.refcnt[b] == 0
    {
      hide Seen, RecoveryTrace, RecoveryAt, InstallReady, Recoverable, Recovered, WithHomes, Pins, Cache.Clean,
        Ordered, Linked, RecentFirst, OneBufferPerBlock;
      ghost var d, before := cache.disk, cache.trace;
      StartsRecovery(layout, d, before);
      k := 0;
      ok := ReadHead();
      if !ok { return; }
      ok, k := InstallTrans(true);
      if !ok { return; }
      ghost var after := cache.trace;
      AllInstalled(true);
      ok := Erase();
      if !ok { return; }
      ClearsHeader(layout, d, before, after, cache.disk);
      k := k + 1;
    }

    /** recover_from_log, up to a loss of power after so many block writes. */
    method RecoverUntil(power: nat)
      requires Booted() && cache.nbuf > 1
      modifies this`n, this`block, this`slot, cache
      ensures cache.disk == RecoveryUntil(layout, old(cache.disk), power)
    {
      hide Seen, RecoveryTrace, RecoveryAt, Recovered, WithHomes, Pins, Loggable, Cache.Valid,
        Cache.Clean, Homes;
      ghost var d, before := cache.disk, cache.trace;
      StartsRecovery(layout, d, before);
      var ok := ReadHead();
      var tail := 0;
      while tail < n && tail < power
        invariant tail <= n && tail <= power && InstallReady(tail, true) && InstallSpare(true)
        invariant n == Count(d[layout.Header()]) && block[..n] == Homes(d[layout.Header()])
        invariant RecoveryTrace(layout, d, before, cache.trace, tail) && cache.disk == RecoveryAt(layout, d, tail)
      {
        ghost var seen := cache.trace;
        ok := InstallOne(tail, true);
        ExtendsInstalled(layout, d, before, seen, tail, cache.disk);
        tail := tail + 1;
      }
      if tail < power {
        AllInstalled(true);
        ghost var after := cache.trace;
        ok := Erase();
        ClearsHeader(layout, d, before, after, cache.disk);
        RecoveryEnds(layout, d);
      }
    }

    // Inside a transaction: the cached, pinned copies are what a commit would write.
    ghost predicate Open()
      reads this, cache
    {
      Shape() && PinnedFrom(0)
    }

    /** What a commit would write for the t-th block is what its pinned buffer holds. */
    lemma PendingIsPinned(t: nat)
      requires Open() && t < n
      ensures Pending()[t] == cache.data[slot[t]]
    {
      assert block[..n][t] == block[t];
      SeenCached(cache.id, cache.valid, cache.data, cache.disk, slot[t]);
    }

    /** begin_op's test, once under the lock; `false` sleeps and tries again. */
    method BeginOp() returns (admitted: bool)
      modifies this`outstanding
      ensures admitted == old(Admits(n, outstanding, committing))
      ensures outstanding == old(outstanding) + if admitted then 1 else 0
    {
      if committing {
        admitted := false;
      } else if n + (outstanding + 1) * MAXOPBLOCKS > LOGSIZE {
        admitted := false;
      } else {
        outstanding := outstanding + 1;
        admitted := true;
      }
    }

    /** The search of log_write: the first place that has this block, or n. */
    method FindLogged(blockno: Word) returns (i: nat)
      requires n <= LOGSIZE == |block|
      ensures i <= n && (i < n ==> block[i] == blockno)
      ensures blockno in block[..n] <==> i < n
    {
      i := 0;
      while i < n
        invariant i <= n && blockno !in block[..i]
      {
        if block[i] == blockno {
          assert block[..n][i] == blockno;
          return;
        }
        assert block[..i + 1] == block[..i] + [block[i]];
        i := i + 1;
      }
    }

    /**
     log_write of a buffer its caller holds.  A block already in the
     transaction is absorbed; a new one is pinned, so what the cache shows for
     it is what a commit will write.
     */
    method LogWrite(b: nat) returns (r: Verdict)
      requires Open() && b < cache.nbuf && cache.locked[b] && cache.valid[b]
      requires cache.id[b].dev == layout.dev && !layout.Inside(cache.id[b]) && cache.id[b].blockno < 0x1_0000_0000
      modifies this`n, this`block, this`slot, cache`refcnt, cache`pins
      ensures r.TooBigTransaction? <==> old(n) >= LOGSIZE || old(n) >= layout.size - 1
      ensures r.OutsideTransaction? ==> outstanding < 1
      ensures r.Recorded? ==> outstanding >= 1 && Open()
      ensures r.Recorded? && cache.id[b].blockno in old(block[..n]) ==>
        block[..n] == old(block[..n]) && unchanged(cache)
      ensures r.Recorded? && cache.id[b].blockno !in old(block[..n]) ==>
        block[..n] == old(block[..n]) + [cache.id[b].blockno] && slot == old(slot) + [b]
      ensures r.Recorded? ==> exists t :: 0 <= t < n && block[t] == cache.id[b].blockno && slot[t] == b
      ensures !r.Recorded? ==> unchanged(this) && unchanged(cache)
    {
      if n >= LOGSIZE || n >= layout.size - 1 {
        return TooBigTransaction;
      }
      if outstanding < 1 {
        return OutsideTransaction;
      }
      hide Ordered, Linked, RecentFirst, Seen;
      var i := FindLogged(cache.id[b].blockno);
      if i == n {
        Append(b);
      } else {
        assert block[..n][i] == block[i];
        block := block[i := cache.id[b].blockno];
        assert block[..n] == old(block[..n]);
      }
      return Recorded;
    }

    method Append(b: nat)
      requires Open() && b < cache.nbuf && cache.locked[b] && cache.valid[b]
      requires cache.id[b].dev == layout.dev && !layout.Inside(cache.id[b]) && cache.id[b].blockno < 0x1_0000_0000
      requires n < LOGSIZE && n < layout.size - 1 && cache.id[b].blockno !in block[..n]
      modifies this`n, this`block, this`slot, cache`refcnt, cache`pins
      ensures Open() && n == old(n) + 1 && block[n - 1] == cache.id[b].blockno
      ensures block[..n] == old(block[..n]) + [cache.id[b].blockno] && slot == old(slot) + [b]
    {
      hide Ordered, Linked, RecentFirst, Seen;
      ghost var homes := block[..n];
      block := block[n := cache.id[b].blockno];
      cache.Pin(b);
      n := n + 1;
      slot := slot + [b];
      assert block[..n] == homes + [cache.id[b].blockno];
      assert slot[0..] == slot;
    }

    /** The first critical section of end_op; `None` is the panic "log.committing". */
    method EndOp() returns (doCommit: Option<bool>)
      modifies this`outstanding, this`committing
      ensures outstanding == old(outstanding) - 1
      ensures old(committing) ==> doCommit == None && committing
      ensures !old(committing) ==> doCommit == Some(outstanding == 0) && committing == (outstanding == 0)
    {
      outstanding := outstanding - 1;
      if committing {
        return None;
      }
      if outstanding == 0 {
        committing := true;
        return Some(true);
      }
      return Some(false);
    }

    /** The second critical section of end_op, after commit. */
    method Resume()
      modifies this`committing
      ensures !committing
    {
      committing := false;
    }
  }

  datatype Verdict = Recorded | TooBigTransaction | OutsideTransaction

  /** The loop of read_head. */
  method TakeHeader(h: Block, block: seq<Word>) returns (n: nat, homes: seq<Word>)
    requires |block| == LOGSIZE && Count(h) <= LOGSIZE
    ensures n == Count(h) && |homes| == LOGSIZE && homes[..n] == Homes(h)
  {
    n, homes := h[0], block;
    var i := 0;
    while i < n
      invariant i <= n && |homes| == LOGSIZE && forall t :: 0 <= t < i ==> homes[t] == h[1 + t]
    {
      homes := homes[i := h[1 + i]];
      i := i + 1;
    }
  }

  /** The loop of write_head. */
  method FillHeader(h: Block, n: nat, block: seq<Word>) returns (hb: Block)
    requires n <= LOGSIZE == |block|
    ensures hb == WithHomes(h, block[..n])
  {
    hb := h[0 := n];
    var i := 0;
    while i < n
      invariant i <= n && hb == [n] + block[..i] + h[1 + i..]
    {
      hb := hb[1 + i := block[i]];
      i := i + 1;
    }
  }
}
