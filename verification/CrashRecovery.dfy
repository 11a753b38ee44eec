/**
 The redo log of kernel/log.c seen as a crash-step machine: what the disk looks
 like after each block write of a commit and of a recovery, and why a crash
 between any two of them, in either, never leaves half a transaction behind.
 */
module CrashRecovery {
  import opened Disk

  const MAXOPBLOCKS: nat := 10
  const LOGSIZE: nat := 3 * MAXOPBLOCKS

  /** Where the log lies: log.dev, log.start (the header block) and log.size. */
  datatype Layout = Layout(dev: nat, start: nat, size: nat) {
    predicate Inside(i: BlockId) {
      i.dev == dev && start <= i.blockno < start + size
    }
    function Header(): BlockId {
      BlockId(dev, start)
    }
    function Slot(t: nat): BlockId {
      BlockId(dev, start + t + 1)
    }
    function Home(blockno: nat): BlockId {
      BlockId(dev, blockno)
    }
    ghost predicate OnDisk(d: Image) {
      1 <= size && Header() in d && forall t: nat :: t + 1 < size ==> Slot(t) in d
    }
  }

  // struct logheader on disk: the count, then the home block numbers.
  function Count(h: Block): nat {
    h[0]
  }

  function Homes(h: Block): seq<Word>
    requires Count(h) <= LOGSIZE
  {
    h[1..1 + Count(h)]
  }

  /** write_head's change to the header block; entries past the count stay as they were. */
  function WithHomes(h: Block, homes: seq<Word>): (r: Block)
    requires |homes| <= LOGSIZE
    ensures Count(r) == |homes| && Homes(r) == homes
  {
    [|homes|] + homes + h[1 + |homes|..]
  }

  ghost predicate Distinct(s: seq<Word>) {
    forall a, b :: 0 <= a < b < |s| ==> s[a] != s[b]
  }

  // A set of blocks one transaction may hold.
  ghost predicate Loggable(l: Layout, d: Image, homes: seq<Word>) {
    && |homes| <= LOGSIZE && |homes| < l.size
    && Distinct(homes)
    && forall t :: 0 <= t < |homes| ==> l.Home(homes[t]) in d && !l.Inside(l.Home(homes[t]))
  }

  // An image the running system or an interrupted recovery can leave behind.
  ghost predicate Recoverable(l: Layout, d: Image) {
    && l.OnDisk(d)
    && Count(d[l.Header()]) <= LOGSIZE
    && Loggable(l, d, Homes(d[l.Header()]))
  }

  // The image after the log slots 0..|contents| have been written.
  ghost function Logged(l: Layout, d: Image, contents: seq<Block>): Image
    decreases |contents|
  {
    if contents == [] then d
    else
      var k := |contents| - 1;
      Logged(l, d, contents[..k])[l.Slot(k) := contents[k]]
  }

  // The image after the first |homes| blocks have been copied home.
  ghost function Installed(l: Layout, d: Image, homes: seq<Word>, contents: seq<Block>): Image
    requires |homes| == |contents|
    decreases |homes|
  {
    if homes == [] then d
    else
      var k := |homes| - 1;
      Installed(l, d, homes[..k], contents[..k])[l.Home(homes[k]) := contents[k]]
  }

  ghost function SlotContents(l: Layout, d: Image, n: nat): seq<Block>
    requires l.OnDisk(d) && n < l.size
  {
    seq(n, t requires 0 <= t < n => d[l.Slot(t)])
  }

  /** The image a recovery that runs to its end leaves. */
  ghost function Recovered(l: Layout, d: Image): Image
    requires Recoverable(l, d)
  {
    var homes := Homes(d[l.Header()]);
    var inst := Installed(l, d, homes, SlotContents(l, d, |homes|));
    inst[l.Header() := WithHomes(d[l.Header()], [])]
  }

  /** The disk after the first k block writes of recover_from_log. */
  ghost function RecoveryAt(l: Layout, d: Image, k: nat): Image
    requires Recoverable(l, d) && k <= Count(d[l.Header()]) + 1
  {
    var homes := Homes(d[l.Header()]);
    if k <= |homes| then Installed(l, d, homes[..k], SlotContents(l, d, |homes|)[..k])
    else Recovered(l, d)
  }

  /** What a recovery leaves that has power for so many block writes. */
  ghost function RecoveryUntil(l: Layout, d: Image, power: nat): Image
    requires Recoverable(l, d)
  {
    var last := Count(d[l.Header()]) + 1;
    RecoveryAt(l, d, if power < last then power else last)
  }

  /**
   The disk after the first k block writes of a commit of `contents` to `homes`:
   the log slots, the header, the home blocks, the cleared header.
   */
  ghost function CommitAt(l: Layout, d: Image, homes: seq<Word>, contents: seq<Block>, k: nat): Image
    requires l.OnDisk(d) && Loggable(l, d, homes) && |contents| == |homes| && k <= 2 * |homes| + 2
  {
    var n := |homes|;
    if k <= n then Logged(l, d, contents[..k])
    else
      var h := WithHomes(d[l.Header()], homes);
      var committed := Logged(l, d, contents)[l.Header() := h];
      if k <= 2 * n + 1 then Installed(l, committed, homes[..k - n - 1], contents[..k - n - 1])
      else Installed(l, committed, homes, contents)[l.Header() := WithHomes(h, [])]
  }

  // ---- what the two kinds of write sequence touch

  lemma {:induction false} LoggedAt(l: Layout, d: Image, contents: seq<Block>)
    requires l.OnDisk(d) && |contents| < l.size
    ensures Logged(l, d, contents).Keys == d.Keys
    ensures forall t :: 0 <= t < |contents| ==> Logged(l, d, contents)[l.Slot(t)] == contents[t]
    ensures forall i :: i in d && (!l.Inside(i) || i == l.Header()) ==> Logged(l, d, contents)[i] == d[i]
  {
    if contents != [] {
      var k := |contents| - 1;
      LoggedAt(l, d, contents[..k]);
      assert l.Slot(k) in d;
    }
  }

  lemma {:induction false} InstalledAt(l: Layout, d: Image, homes: seq<Word>, contents: seq<Block>)
    requires |homes| == |contents| && Distinct(homes)
    requires forall t :: 0 <= t < |homes| ==> l.Home(homes[t]) in d
    ensures Installed(l, d, homes, contents).Keys == d.Keys
    ensures forall t :: 0 <= t < |homes| ==> Installed(l, d, homes, contents)[l.Home(homes[t])] == contents[t]
    ensures forall i :: i in d && (i.dev != l.dev || i.blockno !in homes) ==>
      Installed(l, d, homes, contents)[i] == d[i]
    decreases |homes|
  {
    if homes != [] {
      var k := |homes| - 1;
      InstalledAt(l, d, homes[..k], contents[..k]);
      var x := Installed(l, d, homes[..k], contents[..k]);
      forall t | 0 <= t < k ensures x[l.Home(homes[t])] == contents[t] {
        assert homes[..k][t] == homes[t] && contents[..k][t] == contents[t];
      }
      InstalledLast(l, d, x, homes, contents);
    }
  }

  // One block more, over an image x that has all the others.
  lemma InstalledLast(l: Layout, d: Image, x: Image, homes: seq<Word>, contents: seq<Block>)
    requires 0 < |homes| == |contents| && Distinct(homes) && x.Keys == d.Keys
    requires forall t :: 0 <= t < |homes| ==> l.Home(homes[t]) in d
    requires forall t :: 0 <= t < |homes| - 1 ==> x[l.Home(homes[t])] == contents[t]
    requires forall i :: i in d && (i.dev != l.dev || i.blockno !in homes[..|homes| - 1]) ==> x[i] == d[i]
    ensures var k := |homes| - 1; var r := x[l.Home(homes[k]) := contents[k]];
      && r.Keys == d.Keys && (forall t :: 0 <= t < |homes| ==> r[l.Home(homes[t])] == contents[t])
      && forall i :: i in d && (i.dev != l.dev || i.blockno !in homes) ==> r[i] == d[i]
  {
    var k := |homes| - 1;
    assert homes == homes[..k] + [homes[k]] && l.Home(homes[k]) in d;
  }

  // Copying blocks home again, on top of any copy already under way, ends in the same image.
  lemma {:induction false} InstallAbsorbs(l: Layout, d: Image, homes: seq<Word>, contents: seq<Block>, k: nat)
    requires |homes| == |contents| && Distinct(homes) && k <= |homes|
    requires forall t :: 0 <= t < |homes| ==> l.Home(homes[t]) in d
    ensures Installed(l, Installed(l, d, homes[..k], contents[..k]), homes, contents) ==
      Installed(l, d, homes, contents)
  {
    var mid := Installed(l, d, homes[..k], contents[..k]);
    InstalledAt(l, d, homes[..k], contents[..k]);
    InstalledAt(l, d, homes, contents);
    InstalledAt(l, mid, homes, contents);
    var once, twice := Installed(l, d, homes, contents), Installed(l, mid, homes, contents);
    forall i | i in d ensures once[i] == twice[i] {
      if i.dev == l.dev && i.blockno in homes {
        var t :| 0 <= t < |homes| && homes[t] == i.blockno;
        assert once[l.Home(homes[t])] == contents[t];
      }
    }
  }

  // ---- recovery

  // A partly installed image has the log, header and slots, it started with.
  lemma PartialKeepsLog(l: Layout, d: Image, k: nat)
    requires Recoverable(l, d) && k <= Count(d[l.Header()])
    ensures var x, n := RecoveryAt(l, d, k), Count(d[l.Header()]);
      && x.Keys == d.Keys && l.OnDisk(x)
      && x[l.Header()] == d[l.Header()]
      && SlotContents(l, x, n) == SlotContents(l, d, n)
  {
    var homes := Homes(d[l.Header()]);
    var contents := SlotContents(l, d, |homes|);
    InstalledAt(l, d, homes[..k], contents[..k]);
    assert l.Inside(l.Header());
    forall t | 0 <= t < |homes| ensures l.Slot(t) in d && l.Inside(l.Slot(t)) {
    }
  }

  lemma RestartsPartial(l: Layout, d: Image, k: nat)
    requires Recoverable(l, d) && k <= Count(d[l.Header()])
    ensures Recoverable(l, RecoveryAt(l, d, k))
    ensures Recovered(l, RecoveryAt(l, d, k)) == Recovered(l, d)
  {
    var homes := Homes(d[l.Header()]);
    var contents := SlotContents(l, d, |homes|);
    PartialKeepsLog(l, d, k);
    InstallAbsorbs(l, d, homes, contents, k);
  }

  lemma RestartsCleared(l: Layout, d: Image)
    requires Recoverable(l, d)
    ensures Recoverable(l, Recovered(l, d)) && Count(Recovered(l, d)[l.Header()]) == 0
    ensures Recovered(l, Recovered(l, d)) == Recovered(l, d)
  {
    var homes := Homes(d[l.Header()]);
    InstalledAt(l, d, homes, SlotContents(l, d, |homes|));
    var h, r := d[l.Header()], Recovered(l, d);
    assert r[l.Header()] == WithHomes(h, []) && WithHomes(r[l.Header()], []) == r[l.Header()];
    assert Homes(r[l.Header()]) == [] && SlotContents(l, r, 0) == [];
    assert r.Keys == d.Keys;
  }

  /** Recovery may crash after any of its writes: starting over from there gives the same image. */
  lemma RecoveryRestarts(l: Layout, d: Image, k: nat)
    requires Recoverable(l, d) && k <= Count(d[l.Header()]) + 1
    ensures Recoverable(l, RecoveryAt(l, d, k))
    ensures Recovered(l, RecoveryAt(l, d, k)) == Recovered(l, d)
  {
    if k <= Count(d[l.Header()]) {
      RestartsPartial(l, d, k);
    } else {
      assert RecoveryAt(l, d, k) == Recovered(l, d);
      RestartsCleared(l, d);
    }
  }

  /** A finished recovery: the log is empty and recovering once more changes nothing. */
  lemma RecoveryIdempotent(l: Layout, d: Image)
    requires Recoverable(l, d)
    ensures Recoverable(l, Recovered(l, d))
    ensures Count(Recovered(l, d)[l.Header()]) == 0
    ensures Recovered(l, Recovered(l, d)) == Recovered(l, d)
  {
    RestartsCleared(l, d);
  }

  /**
   Any number of crashes inside recovery: from each image of the run, a
   recovery was started and cut short, leaving the next one.
   */
  ghost predicate CrashRun(l: Layout, run: seq<Image>) {
    && |run| > 0
    && (forall i :: 0 <= i < |run| ==> Recoverable(l, run[i]))
    && forall i :: 0 <= i < |run| - 1 ==> CutShort(l, run[i], run[i + 1])
  }

  ghost predicate CutShort(l: Layout, d: Image, d': Image)
    requires Recoverable(l, d)
  {
    exists k: nat :: k <= Count(d[l.Header()]) + 1 && d' == RecoveryAt(l, d, k)
  }

  lemma {:induction false} CrashRunRecovers(l: Layout, run: seq<Image>)
    requires CrashRun(l, run)
    ensures Recovered(l, run[|run| - 1]) == Recovered(l, run[0])
    decreases |run|
  {
    hide Recovered, RecoveryAt, Loggable;
    if |run| > 1 {
      var m := |run| - 1;
      CrashRunRecovers(l, run[..m]);
      assert CutShort(l, run[m - 1], run[m]);
      var k: nat :| k <= Count(run[m - 1][l.Header()]) + 1 && run[m] == RecoveryAt(l, run[m - 1], k);
      RecoveryRestarts(l, run[m - 1], k);
    }
  }

  // ---- commit

  // Outside the log area, d' is d with `contents` in place of the home blocks.
  ghost predicate Updated(l: Layout, d: Image, d': Image, homes: seq<Word>, contents: seq<Block>)
    requires |homes| == |contents|
  {
    && d'.Keys == d.Keys
    && (forall t :: 0 <= t < |homes| ==> l.Home(homes[t]) in d' && d'[l.Home(homes[t])] == contents[t])
    && forall i :: i in d && !l.Inside(i) && (i.dev != l.dev || i.blockno !in homes) ==> d'[i] == d[i]
  }

  ghost predicate SameFiles(l: Layout, d: Image, d': Image) {
    d'.Keys == d.Keys && forall i :: i in d && !l.Inside(i) ==> d'[i] == d[i]
  }

  // The image the header write leaves.
  ghost function Committed(l: Layout, d: Image, homes: seq<Word>, contents: seq<Block>): Image
    requires l.OnDisk(d) && |homes| <= LOGSIZE
  {
    Logged(l, d, contents)[l.Header() := WithHomes(d[l.Header()], homes)]
  }

  lemma CommittedLog(l: Layout, d: Image, homes: seq<Word>, contents: seq<Block>)
    requires l.OnDisk(d) && |homes| <= LOGSIZE && |homes| == |contents| < l.size
    ensures var c := Committed(l, d, homes, contents);
      && c.Keys == d.Keys && c[l.Header()] == WithHomes(d[l.Header()], homes)
      && (forall t :: 0 <= t < |homes| ==> l.Slot(t) in c && c[l.Slot(t)] == contents[t])
      && forall i :: i in d && !l.Inside(i) ==> c[i] == d[i]
  {
    hide Logged, WithHomes;
    LoggedAt(l, d, contents);
    assert l.Inside(l.Header());
  }

  lemma CommitPoint(l: Layout, d: Image, homes: seq<Word>, contents: seq<Block>)
    requires l.OnDisk(d) && Loggable(l, d, homes) && |contents| == |homes|
    ensures CommitAt(l, d, homes, contents, |homes| + 1) == Committed(l, d, homes, contents)
  {
    hide Logged, WithHomes;
    assert homes[..0] == [] && contents[..0] == [];
  }

  // The commit point: with the header written, recovery installs the whole transaction.
  lemma CommittedRecovers(l: Layout, d: Image, homes: seq<Word>, contents: seq<Block>)
    requires l.OnDisk(d) && Loggable(l, d, homes) && |contents| == |homes|
    ensures var c := CommitAt(l, d, homes, contents, |homes| + 1);
      && Recoverable(l, c) && Homes(c[l.Header()]) == homes
      && SlotContents(l, c, |homes|) == contents
      && Updated(l, d, Recovered(l, c), homes, contents)
  {
    hide CommitAt, Logged, WithHomes, Installed, Count, Homes;
    var c := Committed(l, d, homes, contents);
    CommitPoint(l, d, homes, contents);
    CommittedLog(l, d, homes, contents);
    assert SlotContents(l, c, |homes|) == contents;
    InstalledAt(l, c, homes, contents);
  }

  lemma UncommittedRecovers(l: Layout, d: Image, homes: seq<Word>, contents: seq<Block>, k: nat)
    requires Recoverable(l, d) && Count(d[l.Header()]) == 0
    requires Loggable(l, d, homes) && |contents| == |homes| && k <= |homes|
    ensures var x := CommitAt(l, d, homes, contents, k); Recoverable(l, x) && SameFiles(l, d, Recovered(l, x))
  {
    LoggedAt(l, d, contents[..k]);
  }

  /**
   Crash atomicity: cut a commit after any k of its block writes and recover.
   Up to the header write every home block is as before, from it on every one
   is as logged, and nothing else outside the log area has changed.
   */
  lemma CommitIsAtomic(l: Layout, d: Image, homes: seq<Word>, contents: seq<Block>, k: nat)
    requires Recoverable(l, d) && Count(d[l.Header()]) == 0
    requires Loggable(l, d, homes) && |contents| == |homes| && k <= 2 * |homes| + 2
    ensures var x := CommitAt(l, d, homes, contents, k);
      && Recoverable(l, x)
      && (k <= |homes| ==> SameFiles(l, d, Recovered(l, x)))
      && (k > |homes| ==> Updated(l, d, Recovered(l, x), homes, contents))
  {
    hide CommitAt, Recovered, RecoveryAt, Updated, SameFiles;
    if k <= |homes| {
      UncommittedRecovers(l, d, homes, contents, k);
    } else {
      CommittedRecovers(l, d, homes, contents);
      CommitTailIsRecovery(l, d, homes, contents, k);
      RecoveryRestarts(l, CommitAt(l, d, homes, contents, |homes| + 1), k - |homes| - 1);
    }
  }

  // After the commit point a commit writes exactly what a recovery would.
  lemma CommitTailIsRecovery(l: Layout, d: Image, homes: seq<Word>, contents: seq<Block>, k: nat)
    requires l.OnDisk(d) && Loggable(l, d, homes) && |contents| == |homes| && |homes| < k <= 2 * |homes| + 2
    ensures var c := CommitAt(l, d, homes, contents, |homes| + 1);
      && Recoverable(l, c) && k - |homes| - 1 <= Count(c[l.Header()]) + 1
      && CommitAt(l, d, homes, contents, k) == RecoveryAt(l, c, k - |homes| - 1)
  {
    CommittedRecovers(l, d, homes, contents);
    assert homes[..0] == [] && contents[..0] == [];
  }

  /** The same through any number of further crashes during recovery, up to one that completes. */
  lemma CrashAtomicity(l: Layout, d: Image, homes: seq<Word>, contents: seq<Block>, k: nat, run: seq<Image>)
    requires Recoverable(l, d) && Count(d[l.Header()]) == 0
    requires Loggable(l, d, homes) && |contents| == |homes| && k <= 2 * |homes| + 2
    requires CrashRun(l, run) && run[0] == CommitAt(l, d, homes, contents, k)
    ensures var r := Recovered(l, run[|run| - 1]);
      && (k <= |homes| ==> SameFiles(l, d, r))
      && (k > |homes| ==> Updated(l, d, r, homes, contents))
      && Recoverable(l, r) && Count(r[l.Header()]) == 0 && Recovered(l, r) == r
  {
    CommitIsAtomic(l, d, homes, contents, k);
    CrashRunRecovers(l, run);
    RecoveryIdempotent(l, run[|run| - 1]);
  }

  /** A commit that is not cut short leaves the whole transaction and an empty log. */
  lemma CommitCompletes(l: Layout, d: Image, homes: seq<Word>, contents: seq<Block>)
    requires Recoverable(l, d) && Loggable(l, d, homes) && |contents| == |homes|
    ensures var r := CommitAt(l, d, homes, contents, 2 * |homes| + 2);
      Updated(l, d, r, homes, contents) && Recoverable(l, r) && Count(r[l.Header()]) == 0
  {
    var n := |homes|;
    var c := CommitAt(l, d, homes, contents, n + 1);
    CommittedRecovers(l, d, homes, contents);
    CommitTailIsRecovery(l, d, homes, contents, 2 * n + 2);
    RecoveryIdempotent(l, c);
  }
}
