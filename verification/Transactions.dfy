/**
 Whole runs of the file system's transactions: processes that begin and end
 operations, read, change, log and release blocks in any order, and the
 commit of kernel/log.c that copies, one block write after the other, while
 other processes go on reading.  What a commit writes is what was logged last,
 and a crash between any two steps of any run leaves exactly the transactions
 committed by then.
 */
module Transactions {
  import opened Common
  import opened Disk
  import opened BufferCache
  import opened CrashRecovery
  import LogSpace
  import L = Log

  const NBUF: nat := 30   // MAXOPBLOCKS * 3

  /** A block some process has from bread and not yet given to brelse. */
  datatype Held = Held(pid: nat, buf: nat)

  datatype Books = Books(
    used: map<nat, nat>,       // processes between begin_op and end_op: new blocks logged so far
    holder: map<Word, Held>,
    dirty: map<Word, Block>,   // held blocks changed since they were read or logged
    logged: map<Word, Block>,  // what was logged last for each block of the transaction
    written: nat)              // block writes done by the commit under way

  datatype Event =
    | Begin(pid: nat)
    | Bread(pid: nat, blockno: Word)
    | Store(pid: nat, blockno: Word, contents: Block)
    | LogWrite(pid: nat, blockno: Word)
    | Brelse(pid: nat, blockno: Word)
    | End(pid: nat)
    | Commit      // one more block write of the commit, or its end
    | CommitAll   // all of its block writes, with no other process holding a block

  // Waits: the process sleeps.  Unfit: not something the file system's code would do.  NoBuffers: bget's panic.
  datatype Outcome = Done | Waits | Unfit | NoBuffers

  // ---- what readers see

  ghost function Expected(l: Layout, disk: Image, logged: map<Word, Block>, dirty: map<Word, Block>, i: BlockId): Block
    requires i in disk
  {
    if i.dev == l.dev && i.blockno in dirty then dirty[i.blockno]
    else if i.dev == l.dev && i.blockno in logged then logged[i.blockno]
    else disk[i]
  }

  // ---- what a crash leaves

  ghost function Overlay(l: Layout, first: Image, commits: seq<map<Word, Block>>): (d: Image)
    ensures d.Keys == first.Keys
  {
    if commits == [] then first
    else
      var before, last := Overlay(l, first, commits[..|commits| - 1]), commits[|commits| - 1];
      map i | i in before :: if i.dev == l.dev && i.blockno in last then last[i.blockno] else before[i]
  }

  ghost function ContentsOf(logged: map<Word, Block>, homes: seq<Word>): (s: seq<Block>)
    requires forall t :: 0 <= t < |homes| ==> homes[t] in logged
    ensures |s| == |homes|
  {
    seq(|homes|, t requires 0 <= t < |homes| => logged[homes[t]])
  }

  ghost predicate Lists(homes: seq<Word>, logged: map<Word, Block>) {
    && (forall t :: 0 <= t < |homes| ==> homes[t] in logged)
    && forall w :: w in logged ==> w in homes
  }

  // The disk is `written` block writes into a commit of `logged`, over an image `base` with an empty log.
  ghost predicate OnTheWay(l: Layout, base: Image, homes: seq<Word>, logged: map<Word, Block>, written: nat,
                           disk: Image)
  {
    && Recoverable(l, base) && Count(base[l.Header()]) == 0 && Loggable(l, base, homes)
    && Lists(homes, logged) && written <= (if homes == [] then 0 else 2 * |homes| + 1)
    && disk == CommitAt(l, base, homes, ContentsOf(logged, homes), written)
  }

  // The header write of a commit adds the transaction to `commits`.
  ghost predicate Recorded(l: Layout, first: Image, commits: seq<map<Word, Block>>,
                           base: Image, n: nat, logged: map<Word, Block>, written: nat) {
    if written <= n then SameFiles(l, Overlay(l, first, commits), base)
    else
      && commits != [] && commits[|commits| - 1] == logged
      && SameFiles(l, Overlay(l, first, commits[..|commits| - 1]), base)
  }

  // Recovery gives the files as of the last committed transaction.
  ghost predicate Survives(l: Layout, first: Image, commits: seq<map<Word, Block>>, disk: Image) {
    Recoverable(l, disk) && SameFiles(l, Overlay(l, first, commits), Recovered(l, disk))
  }

  lemma UpdatedOverlay(l: Layout, first: Image, commits: seq<map<Word, Block>>, base: Image,
                       homes: seq<Word>, logged: map<Word, Block>, d: Image)
    requires Lists(homes, logged) && Updated(l, base, d, homes, ContentsOf(logged, homes))
    requires commits != [] && commits[|commits| - 1] == logged
    requires SameFiles(l, Overlay(l, first, commits[..|commits| - 1]), base)
    ensures SameFiles(l, Overlay(l, first, commits), d)
  {
    var o := Overlay(l, first, commits);
    forall i | i in o && !l.Inside(i) ensures d[i] == o[i] {
      if i.dev == l.dev && i.blockno in logged {
        var t :| 0 <= t < |homes| && homes[t] == i.blockno;
        assert l.Home(homes[t]) == i;
      }
    }
  }

  /** A crash now, whatever the commit under way has written. */
  lemma CrashNow(l: Layout, first: Image, commits: seq<map<Word, Block>>, base: Image,
                 homes: seq<Word>, logged: map<Word, Block>, written: nat, disk: Image)
    requires OnTheWay(l, base, homes, logged, written, disk)
    requires Recorded(l, first, commits, base, |homes|, logged, written)
    ensures Survives(l, first, commits, disk)
  {
    hide CommitAt, Recovered, Overlay, Loggable;
    CommitIsAtomic(l, base, homes, ContentsOf(logged, homes), written);
    if written > |homes| {
      UpdatedOverlay(l, first, commits, base, homes, logged, Recovered(l, disk));
    }
  }

  // ---- one block write of the commit

  lemma NotStarted(l: Layout, base: Image, homes: seq<Word>, logged: map<Word, Block>)
    requires Recoverable(l, base) && Count(base[l.Header()]) == 0 && Loggable(l, base, homes) && Lists(homes, logged)
    ensures OnTheWay(l, base, homes, logged, 0, base)
  {
    assert ContentsOf(logged, homes)[..0] == [];
  }

  lemma LoggedOne(l: Layout, base: Image, homes: seq<Word>, logged: map<Word, Block>, written: nat, disk: Image)
    requires OnTheWay(l, base, homes, logged, written, disk) && written < |homes|
    ensures OnTheWay(l, base, homes, logged, written + 1, disk[l.Slot(written) := logged[homes[written]]])
  {
    var contents := ContentsOf(logged, homes);
    assert contents[..written + 1][..written] == contents[..written];
  }

  lemma WroteHead(l: Layout, base: Image, homes: seq<Word>, logged: map<Word, Block>, disk: Image)
    requires OnTheWay(l, base, homes, logged, |homes|, disk) && homes != []
    ensures l.Header() in disk
    ensures OnTheWay(l, base, homes, logged, |homes| + 1, disk[l.Header() := WithHomes(disk[l.Header()], homes)])
  {
    var contents := ContentsOf(logged, homes);
    LoggedAt(l, base, contents);
    assert contents[..|homes|] == contents && homes[..0] == [] && contents[..0] == [];
  }

  lemma PartlyInstalled(l: Layout, c: Image, homes: seq<Word>, contents: seq<Block>, t: nat)
    requires |homes| == |contents| && t <= |homes| && Loggable(l, c, homes)
    ensures var d := Installed(l, c, homes[..t], contents[..t]);
      && d.Keys == c.Keys && (forall i :: i in c && l.Inside(i) ==> d[i] == c[i])
      && forall u :: 0 <= u < t ==> d[l.Home(homes[u])] == contents[u]
  {
    InstalledAt(l, c, homes[..t], contents[..t]);
    var d := Installed(l, c, homes[..t], contents[..t]);
    forall u | 0 <= u < t ensures d[l.Home(homes[u])] == contents[u] {
      assert homes[..t][u] == homes[u] && contents[..t][u] == contents[u];
    }
    forall i | i in c && l.Inside(i) ensures d[i] == c[i] {
      assert i.dev != l.dev || i.blockno !in homes[..t];
    }
  }

  // The log slots and the header are as the commit wrote them while it installs.
  lemma Installing(l: Layout, base: Image, homes: seq<Word>, logged: map<Word, Block>, written: nat, disk: Image)
    requires OnTheWay(l, base, homes, logged, written, disk) && written > |homes|
    ensures l.OnDisk(disk) && disk[l.Header()] == WithHomes(base[l.Header()], homes)
    ensures forall t :: 0 <= t < |homes| ==> disk[l.Slot(t)] == logged[homes[t]]
    ensures forall t :: 0 <= t < written - |homes| - 1 ==>
      l.Home(homes[t]) in disk && disk[l.Home(homes[t])] == logged[homes[t]]
  {
    hide Logged, Installed, WithHomes;
    var contents, t := ContentsOf(logged, homes), written - |homes| - 1;
    var c := Committed(l, base, homes, contents);
    CommittedLog(l, base, homes, contents);
    PartlyInstalled(l, c, homes, contents, t);
    assert disk == Installed(l, c, homes[..t], contents[..t]);
    assert l.Inside(l.Header());
    forall u | 0 <= u < |homes| ensures l.Inside(l.Slot(u)) {
    }
  }

  lemma SlotHolds(l: Layout, base: Image, homes: seq<Word>, logged: map<Word, Block>, t: nat, disk: Image)
    requires t < |homes| && OnTheWay(l, base, homes, logged, |homes| + 1 + t, disk)
    ensures homes[t] in logged && l.Slot(t) in disk && disk[l.Slot(t)] == logged[homes[t]]
  {
    hide CommitAt, WithHomes;
    Installing(l, base, homes, logged, |homes| + 1 + t, disk);
  }

  lemma InstalledOne(l: Layout, base: Image, homes: seq<Word>, logged: map<Word, Block>, t: nat, disk: Image)
    requires t < |homes| && OnTheWay(l, base, homes, logged, |homes| + 1 + t, disk)
    ensures homes[t] in logged
    ensures OnTheWay(l, base, homes, logged, |homes| + 2 + t, disk[l.Home(homes[t]) := logged[homes[t]]])
  {
    hide Logged, WithHomes;
    var contents := ContentsOf(logged, homes);
    assert homes[..t + 1][..t] == homes[..t] && contents[..t + 1][..t] == contents[..t];
  }

  // The last write: the log is empty again, over an image that has the whole transaction.
  lemma Erased(l: Layout, base: Image, homes: seq<Word>, logged: map<Word, Block>, disk: Image)
    requires OnTheWay(l, base, homes, logged, 2 * |homes| + 1, disk)
    ensures l.Header() in disk
    ensures var d := disk[l.Header() := WithHomes(disk[l.Header()], [])];
      && Recoverable(l, d) && Count(d[l.Header()]) == 0
      && Updated(l, base, d, homes, ContentsOf(logged, homes))
  {
    hide Logged, Installed, WithHomes, Updated, Recoverable, Loggable;
    var contents := ContentsOf(logged, homes);
    Installing(l, base, homes, logged, 2 * |homes| + 1, disk);
    CommitCompletes(l, base, homes, contents);
    assert homes[..|homes|] == homes && contents[..|homes|] == contents;
  }

  // ---- what every step keeps

  // Buffers are locked by the processes that hold them, and only they are users.
  ghost predicate HeldBy(l: Layout, id: seq<BlockId>, valid: seq<bool>, locked: seq<bool>, users: seq<nat>,
                         holder: map<Word, Held>) {
    && |id| == |valid| == |locked| == |users|
    && (forall w :: w in holder ==> !l.Inside(l.Home(w)) && IsAt(l, id, valid, locked, w, holder[w].buf))
    && (forall b :: 0 <= b < |id| && locked[b] ==>
      id[b].dev == l.dev && id[b].blockno in holder && holder[id[b].blockno].buf == b)
    && (forall b :: 0 <= b < |id| ==> users[b] == if locked[b] then 1 else 0)
  }

  ghost predicate IsAt(l: Layout, id: seq<BlockId>, valid: seq<bool>, locked: seq<bool>, w: Word, b: nat)
    requires |id| == |valid| == |locked|
  {
    b < |id| && id[b] == l.Home(w) && valid[b] && locked[b]
  }

  // Only processes inside an operation change blocks, and a commit under way has no operation beside it.
  ghost predicate Tidy(books: Books, committing: bool) {
    && (forall w :: w in books.dirty ==> w in books.holder && books.holder[w].pid in books.used)
    && (committing ==> books.used == map[])
    && (!committing ==> books.written == 0)
  }

  lemma WhileCommitting(books: Books)
    requires Tidy(books, true)
    ensures books.dirty == map[]
    ensures forall logged, written: nat :: Tidy(books.(logged := logged, written := written), true)
  {
  }

  ghost predicate Shows(l: Layout, id: seq<BlockId>, valid: seq<bool>, data: seq<Block>, disk: Image,
                        logged: map<Word, Block>, dirty: map<Word, Block>)
    requires |id| == |valid| == |data|
  {
    forall i :: i in disk && i.dev != 0 ==> Seen(id, valid, data, disk, i) == Expected(l, disk, logged, dirty, i)
  }

  // The admission counters are those of a run of LogSpace.
  ghost predicate Spaced(steps: seq<LogSpace.Step>, budget: nat, n: nat, outstanding: int, committing: bool,
                         used: map<nat, nat>)
  {
    && LogSpace.Run(steps, budget)
    && LogSpace.After(steps) == LogSpace.State(LogSpace.After(steps).n, outstanding, committing, used)
    && (LogSpace.After(steps).n == n || (committing && n == 0))
  }

  // Blocks the commit has installed and unpinned.
  function Unpinned(n: nat, written: nat): nat {
    if written <= n then 0 else written - n - 1
  }

  // What an event does to the books.
  ghost predicate Moves(l: Layout, disk: Image, n: nat, b: Books, e: Event, b': Books) {
    match e
    case Begin(p) => b' == b.(used := b.used[p := 0])
    case Bread(p, w) => w !in b.holder && w in b'.holder && b'.holder[w].pid == p
      && b' == b.(holder := b.holder[w := b'.holder[w]])
    case Store(p, w, c) => b' == b.(dirty := b.dirty[w := c])
    case LogWrite(p, w) =>
      && p in b.used && l.Home(w) in disk
      && b' == b.(logged := b.logged[w := Expected(l, disk, b.logged, b.dirty, l.Home(w))], dirty := b.dirty - {w},
                  used := if w in b.logged then b.used else b.used[p := b.used[p] + 1])
    case Brelse(p, w) => b' == b.(holder := b.holder - {w})
    case End(p) => b' == b.(used := b.used - {p})
    case Commit =>
      if n == 0 then b' == b
      else if b.written <= 2 * n then b' == b.(written := b.written + 1)
      else b' == b.(logged := map[], written := 0)
    case CommitAll => b' == b.(logged := map[])
  }

  ghost function Commits(n: nat, b: Books, e: Event, commits: seq<map<Word, Block>>): seq<map<Word, Block>> {
    if e.CommitAll? || (e.Commit? && n > 0 && b.written == n) then commits + [b.logged] else commits
  }

  predicate Has(b: Books, pid: nat, w: Word) {
    w in b.holder && b.holder[w].pid == pid
  }

  // The block the commit has to read next is with some reader.
  ghost predicate Stalled(homes: seq<Word>, b: Books) {
    var n := |homes|;
    || (b.written < n && homes[b.written] in b.holder)
    || (n < b.written <= 2 * n && homes[b.written - n - 1] in b.holder)
  }

  /** What the whole system is at one moment. */
  datatype Moment = Moment(disk: Image, homes: seq<Word>, outstanding: int, committing: bool,
                           books: Books, commits: seq<map<Word, Block>>)

  // Blocks whose buffers bget cannot reuse: those held, and those logged and not yet installed.
  ghost function InUse(homes: seq<Word>, b: Books): set<Word> {
    b.holder.Keys + set u | Unpinned(|homes|, b.written) <= u < |homes| :: homes[u]
  }

  /** What becomes of an event. */
  ghost function Fate(l: Layout, budget: nat, nbuf: nat, m: Moment, e: Event): Outcome {
    var b, n, full := m.books, |m.homes|, nbuf <= |InUse(m.homes, m.books)|;
    match e
    case Begin(p) =>
      if p in b.used then Unfit else if LogSpace.Admits(n, m.outstanding, m.committing) then Done else Waits
    case Bread(p, w) =>
      if l.Home(w) !in m.disk || l.Inside(l.Home(w)) then Unfit
      else if w in b.holder then Waits
      else if full && w !in InUse(m.homes, b) then NoBuffers else Done
    case Store(p, w, c) => if Has(b, p, w) && p in b.used then Done else Unfit
    case LogWrite(p, w) =>
      if Has(b, p, w) && p in b.used && (w in b.logged || b.used[p] < budget) then Done else Unfit
    case Brelse(p, w) => if Has(b, p, w) && w !in b.dirty then Done else Unfit
    case End(p) => if p in b.used && forall w :: w in b.dirty ==> !Has(b, p, w) then Done else Unfit
    case Commit =>
      if !m.committing then Unfit
      else if Stalled(m.homes, b) then Waits
      else if full && n > 0 then NoBuffers else Done
    case CommitAll =>
      if m.committing && n > 0 && b.written == 0 && b.holder == map[] && n < nbuf then Done else Unfit
  }

  // The blocks of the transaction after an event, in the order they were first logged.
  ghost function HomesAfter(homes: seq<Word>, b: Books, e: Event): seq<Word> {
    match e
    case LogWrite(p, w) => if w in b.logged then homes else homes + [w]
    case Commit => if b.written == 2 * |homes| + 1 then [] else homes
    case CommitAll => []
    case _ => homes
  }

  // The block write of one step of the commit: a log slot, the header, a home block, or the header again.
  ghost predicate WritesOne(l: Layout, disk: Image, homes: seq<Word>, logged: map<Word, Block>, written: nat,
                            disk': Image)
  {
    var n := |homes|;
    && n <= LOGSIZE && l.Header() in disk && Lists(homes, logged)
    && if n == 0 then disk' == disk
       else if written < n then disk' == disk[l.Slot(written) := logged[homes[written]]]
       else if written == n then disk' == disk[l.Header() := WithHomes(disk[l.Header()], homes)]
       else if written <= 2 * n then
         var w := homes[written - n - 1];
         disk' == disk[l.Home(w) := logged[w]]
       else disk' == disk[l.Header() := WithHomes(disk[l.Header()], [])]
  }

  ghost predicate WritesAll(l: Layout, disk: Image, homes: seq<Word>, logged: map<Word, Block>, disk': Image) {
    && l.OnDisk(disk) && Loggable(l, disk, homes) && Lists(homes, logged)
    && disk' == CommitAt(l, disk, homes, ContentsOf(logged, homes), 2 * |homes| + 2)
  }

  // What an event writes to the disk.
  ghost predicate Writes(l: Layout, disk: Image, homes: seq<Word>, b: Books, e: Event, disk': Image) {
    match e
    case Commit => WritesOne(l, disk, homes, b.logged, b.written, disk')
    case CommitAll => WritesAll(l, disk, homes, b.logged, disk')
    case _ => disk' == disk
  }

  // log.outstanding and log.committing.
  ghost predicate Counts(m: Moment, e: Event, m': Moment) {
    match e
    case Begin(p) => m'.outstanding == m.outstanding + 1 && m'.committing == m.committing
    case End(p) => m'.outstanding == m.outstanding - 1 && m'.committing == (m'.books.used == map[])
    case Commit => m'.outstanding == m.outstanding && m'.committing == (m.homes != [])
    case _ => m'.outstanding == m.outstanding && m'.committing == m.committing
  }

  /** From one moment to the next: all there is to a system, but for the choice of buffers.  A panic has no next. */
  ghost predicate Passes(l: Layout, budget: nat, nbuf: nat, m: Moment, e: Event, m': Moment) {
    var r := Fate(l, budget, nbuf, m, e);
    if r.Done? then
      && Moves(l, m.disk, |m.homes|, m.books, e, m'.books) && Counts(m, e, m')
      && m'.commits == Commits(|m.homes|, m.books, e, m.commits)
      && m'.homes == HomesAfter(m.homes, m.books, e)
      && Writes(l, m.disk, m.homes, m.books, e, m'.disk)
    else !r.NoBuffers? && m' == m
  }

  lemma PanicFull(l: Layout, budget: nat, nbuf: nat, m: Moment, e: Event)
    requires Fate(l, budget, nbuf, m, e).NoBuffers?
    ensures nbuf <= |InUse(m.homes, m.books)| && (e.Bread? || e.Commit?)
  {
  }

  lemma CommitsGrow(l: Layout, budget: nat, nbuf: nat, m: Moment, e: Event, m': Moment)
    requires Passes(l, budget, nbuf, m, e, m')
    ensures m.commits <= m'.commits
  {
    hide Fate, Moves, Writes;
  }

  datatype Past = Past(
    first: Image,                       // the disk at the start
    commits: seq<map<Word, Block>>,     // the transactions committed since, oldest first
    base: Image,                        // the disk when the log was last empty
    steps: seq<LogSpace.Step>)

  class System {
    const log: L.Log
    const budget: nat   // new blocks an operation may log
    var books: Books
    ghost var past: Past

    // The cache and the disk agree with books b, over an image `base` with an empty log.
    ghost predicate Fits(b: Books, base: Image)
      reads log, log.cache
    {
      && log.Shape() && log.PinnedFrom(Unpinned(log.n, b.written))
      && HeldBy(log.layout, log.cache.id, log.cache.valid, log.cache.locked, log.cache.users, b.holder)
      && Shows(log.layout, log.cache.id, log.cache.valid, log.cache.data, log.cache.disk, b.logged, b.dirty)
      && OnTheWay(log.layout, base, log.block[..log.n], b.logged, b.written, log.cache.disk)
    }

    ghost predicate Inv()
      reads this, log, log.cache
    {
      && Fits(books, past.base) && Tidy(books, log.committing)
      && Recorded(log.layout, past.first, past.commits, past.base, log.n, books.logged, books.written)
      && budget < MAXOPBLOCKS && log.layout.size == LogSpace.NLOG && log.n <= LOGSIZE == |log.block|
      && Spaced(past.steps, budget, log.n, log.outstanding, log.committing, books.used)
    }

    /** A crash now, and the recovery after it, leave the transactions committed so far. */
    ghost predicate Safe()
      reads this, log, log.cache
    {
      Survives(log.layout, past.first, past.commits, log.cache.disk)
    }

    lemma InvSafe()
      requires Inv()
      ensures Safe()
    {
      hide OnTheWay, Recorded, Spaced, Shows, HeldBy, Tidy, L.Pins, Loggable, Cache.Valid, Cache.Clean, Survives;
      CrashNow(log.layout, past.first, past.commits, past.base, log.block[..log.n], books.logged, books.written,
        log.cache.disk);
    }

    /** A system with an empty log and no process in the file system. */
    constructor (log: L.Log, budget: nat)
      requires log.Idle() && log.outstanding == 0 && !log.committing && log.layout.size == LogSpace.NLOG
      requires budget < MAXOPBLOCKS && forall b :: 0 <= b < |log.cache.refcnt| ==> log.cache.refcnt[b] == 0
      ensures Inv() && this.log == log && this.budget == budget
      ensures books == Books(map[], map[], map[], map[], 0) && past == Past(log.cache.disk, [], log.cache.disk, [])
    {
      this.log, this.budget := log, budget;
      books := Books(map[], map[], map[], map[], 0);
      past := Past(log.cache.disk, [], log.cache.disk, []);
      new;
      hide Ordered, Linked, RecentFirst;
      NotStarted(log.layout, log.cache.disk, log.block[..log.n], map[]);
    }

    ghost function Now(): Moment
      requires log.n <= |log.block|
      reads this, log, log.cache
    {
      Moment(log.cache.disk, log.block[..log.n], log.outstanding, log.committing, books, past.commits)
    }

    // One block write of the commit is done.
    twostate predicate WroteOne()
      requires old(log.n) <= old(|log.block|)
      reads log.cache
    {
      WritesOne(log.layout, old(log.cache.disk), old(log.block[..log.n]), old(books.logged), old(books.written),
                log.cache.disk)
    }

    // bget's panic has changed nothing that matters.
    twostate predicate Same()
      reads this, log.cache
    {
      log.cache.disk == old(log.cache.disk) && books == old(books) && past.commits == old(past.commits)
    }

    /** begin_op. */
    method BeginOp(pid: nat) returns (r: Outcome)
      requires Inv()
      modifies this`books, this`past, log`outstanding
      ensures Inv() && past == old(past).(steps := past.steps)
      ensures r == Fate(log.layout, budget, log.cache.nbuf, old(Now()), Begin(pid))
      ensures Passes(log.layout, budget, log.cache.nbuf, old(Now()), Begin(pid), Now())
    {
      hide InUse, OnTheWay, Recorded, Shows, HeldBy, Spaced, L.Pins, Loggable, Cache.Valid, Cache.Clean;
      if pid in books.used {
        return Unfit;
      }
      ghost var outstanding := log.outstanding;
      var ok := log.BeginOp();
      if !ok {
        return Waits;
      }
      SpaceBegin(past.steps, budget, log.n, outstanding, books.used, pid);
      books := books.(used := books.used[pid := 0]);
      past := past.(steps := past.steps + [LogSpace.Begin(pid)]);
      return Done;
    }

    // A buffer can be reused exactly when there are more buffers than blocks in use.
    lemma Crowded()
      requires Inv()
      ensures log.Spare() <==> |InUse(log.block[..log.n], books)| < log.cache.nbuf
      ensures |InUse(log.block[..log.n], books)| <= |books.holder| + log.n
    {
      hide OnTheWay, Recorded, Spaced, Shows, Loggable, Ordered, Linked, RecentFirst, L.Pins, HeldBy, Tidy;
      var c, homes := log.cache, log.block[..log.n];
      AllTaken(log.layout, homes, log.slot, c.id, c.valid, c.locked, c.refcnt, c.users, c.pins, books);
      InUseSize(homes, books);
    }

    // Nor does bget fail for a block in use.
    lemma Reached(i: BlockId)
      requires Inv() && i.dev == log.layout.dev
      ensures log.cache.Reach(i) <==> log.Spare() || i.blockno in InUse(log.block[..log.n], books)
      ensures log.layout.Inside(i) ==> i.blockno !in InUse(log.block[..log.n], books)
    {
      hide OnTheWay, Recorded, Spaced, Shows, Ordered, Linked, RecentFirst, L.Pins, HeldBy, Tidy, InUse;
      var c, homes := log.cache, log.block[..log.n];
      UsedOutside(log.layout, homes, c.id, c.valid, c.locked, c.users, c.disk, books);
      if i.blockno in InUse(homes, books) {
        var b := BufferOf(log.layout, homes, log.slot, c.id, c.valid, c.locked, c.refcnt, c.users, c.pins, books,
                          i.blockno);
      }
      forall b | 0 <= b < c.nbuf && c.id[b] == i && c.refcnt[b] > 0 ensures i.blockno in InUse(homes, books) {
        IsTaken(log.layout, homes, log.slot, c.id, c.valid, c.locked, c.refcnt, c.users, c.pins, books, b);
      }
    }

    lemma SlotReached(t: nat)
      requires Inv() && t < log.n
      ensures log.cache.Reach(log.layout.Slot(t)) <==> log.Spare()
    {
      hide OnTheWay, Recorded, Spaced, Shows, Ordered, Linked, RecentFirst, L.Pins, HeldBy, Tidy, InUse;
      Reached(log.layout.Slot(t));
    }

    /** bread: the process holds the block's buffer, with what a reader should see in it. */
    method Bread(pid: nat, w: Word) returns (r: Outcome)
      requires Inv()
      modifies this`books, log.cache
      ensures Inv() && (r.Done? ==> HasRead(w))
      ensures r == Fate(log.layout, budget, log.cache.nbuf, old(Now()), Event.Bread(pid, w))
      ensures if r.NoBuffers? then Now() == old(Now())
        else Passes(log.layout, budget, log.cache.nbuf, old(Now()), Event.Bread(pid, w), Now())
    {
      hide InUse, Fits, Recorded, Spaced, HasRead;
      if log.layout.Home(w) !in log.cache.disk || log.layout.Inside(log.layout.Home(w)) {
        return Unfit;
      }
      if w in books.holder {
        return Waits;
      }
      Crowded();
      Reached(log.layout.Home(w));
      var b := Take(pid, w);
      if b.None? {
        return NoBuffers;
      }
      books := books.(holder := books.holder[w := Held(pid, b.value)]);
      BufferShows(w);
      return Done;
    }

    // The buffer of a held block has the block's last changes in it.
    ghost predicate HasRead(w: Word)
      reads this, log, log.cache
    {
      && w in books.holder && books.holder[w].buf < |log.cache.data| && log.layout.Home(w) in log.cache.disk
      && log.cache.data[books.holder[w].buf] ==
        Expected(log.layout, log.cache.disk, books.logged, books.dirty, log.layout.Home(w))
    }

    lemma SeenHeld(w: Word)
      requires Fits(books, past.base) && w in books.holder
      ensures books.holder[w].buf < |log.cache.data| && log.layout.Home(w) in log.cache.disk
      ensures log.cache.data[books.holder[w].buf] == log.cache.View(log.layout.Home(w))
    {
      hide OnTheWay, Shows, HeldBy, L.Pins, Loggable, Seen, Cache.Clean, Ordered, Linked, RecentFirst, Counted;
      var c := log.cache;
      HeldAt(log.layout, c.id, c.valid, c.locked, c.users, books.holder, w);
      SeenCached(c.id, c.valid, c.data, c.disk, books.holder[w].buf);
    }

    lemma BufferShows(w: Word)
      requires Fits(books, past.base) && w in books.holder
      ensures HasRead(w)
    {
      hide OnTheWay, HeldBy, L.Pins, Loggable, Seen, Cache.Clean, Ordered, Linked, RecentFirst, Counted;
      SeenHeld(w);
    }

    method Take(pid: nat, w: Word) returns (b: Option<nat>)
      requires Fits(books, past.base) && w !in books.holder
      requires log.layout.Home(w) in log.cache.disk && !log.layout.Inside(log.layout.Home(w))
      modifies log.cache
      ensures b.None? ==> unchanged(log.cache)
      ensures b.Some? <==> old(log.cache.Reach(log.layout.Home(w)))
      ensures b.Some? ==> Fits(books.(holder := books.holder[w := Held(pid, b.value)]), past.base)
      ensures log.cache.disk == old(log.cache.disk)
    {
      hide OnTheWay, Shows, HeldBy, L.Pins, Loggable, Ordered, Linked, RecentFirst, Seen, OneBufferPerBlock,
        Cache.Clean;
      ghost var c := log.cache;
      ghost var id, valid, locked, users, data := c.id, c.valid, c.locked, c.users, c.data;
      Unlocked(log.layout, id, valid, locked, users, books.holder, w);
      b := log.cache.Read(log.layout.Home(w));
      if b.None? {
        return;
      }
      assert old(log.cache.id[b.value] == log.layout.Home(w) || log.cache.refcnt[b.value] == 0);
      HeldMore(log.layout, id, valid, locked, users, books.holder, c.id, c.valid, w, pid, b.value);
      L.PinsKept(log.layout, log.block[..log.n], log.slot, c.pins, Unpinned(log.n, books.written), id, valid, c.id,
        c.valid);
      ShowsKept(log.layout, id, valid, data, c.disk, c.id, c.valid, c.data, books.logged, books.dirty);
    }

    /** A change to a block the process holds, inside its operation. */
    method Store(pid: nat, w: Word, contents: Block) returns (r: Outcome)
      requires Inv()
      modifies this`books, log.cache`data
      ensures Inv() && r == Fate(log.layout, budget, log.cache.nbuf, old(Now()), Event.Store(pid, w, contents))
      ensures Passes(log.layout, budget, log.cache.nbuf, old(Now()), Event.Store(pid, w, contents), Now())
    {
      hide InUse, OnTheWay, Recorded, Spaced, Shows, HeldBy, L.Pins, Loggable, Ordered, Linked, RecentFirst, Seen,
        OneBufferPerBlock;
      if !(w in books.holder && books.holder[w].pid == pid && pid in books.used) {
        return Unfit;
      }
      ghost var c := log.cache;
      ghost var data := c.data;
      HeldAt(log.layout, c.id, c.valid, c.locked, c.users, books.holder, w);
      log.cache.Store(books.holder[w].buf, contents);
      ShowsStored(log.layout, c.id, c.valid, data, c.data, c.disk, books.logged, books.dirty, w, contents);
      books := books.(dirty := books.dirty[w := contents]);
      return Done;
    }

    /** log_write of a held block: its contents now are the last logged ones. */
    method LogWrite(pid: nat, w: Word) returns (r: Outcome)
      requires Inv()
      modifies this`books, this`past, log`n, log`block, log`slot, log.cache`refcnt, log.cache`pins
      ensures Inv() && past == old(past).(steps := past.steps)
      ensures r == Fate(log.layout, budget, log.cache.nbuf, old(Now()), Event.LogWrite(pid, w))
      ensures Passes(log.layout, budget, log.cache.nbuf, old(Now()), Event.LogWrite(pid, w), Now())
    {
      hide InUse, Fits, Recorded, Spaced;
      if !(w in books.holder && books.holder[w].pid == pid && pid in books.used) {
        return Unfit;
      }
      if w !in books.logged && books.used[pid] >= budget {
        return Unfit;
      }
      ghost var isNew, n := w !in books.logged, log.n;
      SpaceWrite(past.steps, budget, n, log.outstanding, books.used, pid, isNew);
      var contents := Record(w, if isNew then books.used[pid := books.used[pid] + 1] else books.used);
      StillRecorded(log.layout, past, n, books.logged, log.n, books.logged[w := contents]);
      past := past.(steps := past.steps + [LogSpace.Write(pid, isNew)]);
      books := books.(logged := books.logged[w := contents], dirty := books.dirty - {w},
                      used := if w in books.logged then books.used else books.used[pid := books.used[pid] + 1]);
      return Done;
    }

    // log_write where no panic is due.
    method Record(w: Word, ghost used: map<nat, nat>) returns (contents: Block)
      requires Fits(books, past.base) && w in books.holder && books.written == 0
      requires log.n < LOGSIZE && log.n < log.layout.size - 1 && log.outstanding >= 1
      modifies log`n, log`block, log`slot, log.cache`refcnt, log.cache`pins
      ensures log.n == (old(log.n) + if w in books.logged then 0 else 1) <= LOGSIZE == |log.block|
      ensures log.block[..log.n] == old(log.block[..log.n]) + if w in books.logged then [] else [w]
      ensures Fits(books.(logged := books.logged[w := contents], dirty := books.dirty - {w}, used := used), past.base)
      ensures log.layout.Home(w) in log.cache.disk
      ensures contents == Expected(log.layout, log.cache.disk, books.logged, books.dirty, log.layout.Home(w))
    {
      hide OnTheWay, Shows, L.Pins, Loggable, Ordered, Linked, RecentFirst, Seen, Cache.Clean, HeldBy,
        OneBufferPerBlock, Counted,
        Recoverable;
      ghost var c, l := log.cache, log.layout;
      HeldAt(l, c.id, c.valid, c.locked, c.users, books.holder, w);
      AtStart(l, past.base, log.block[..log.n], books.logged, c.disk);
      var b := books.holder[w].buf;
      SeenHeld(w);
      contents := log.cache.data[b];
      var verdict := log.LogWrite(b);
      ShowsLogged(l, c.id, c.valid, c.data, c.disk, books.logged, books.dirty, w, contents);
      NotStarted(l, past.base, log.block[..log.n], books.logged[w := contents]);
    }

    /** end_op up to the commit: the last operation to end starts it. */
    method EndOp(pid: nat) returns (r: Outcome)
      requires Inv()
      modifies this`books, this`past, log`outstanding, log`committing
      ensures Inv() && past == old(past).(steps := past.steps)
      ensures r == Fate(log.layout, budget, log.cache.nbuf, old(Now()), End(pid))
      ensures Passes(log.layout, budget, log.cache.nbuf, old(Now()), End(pid), Now())
    {
      hide InUse, OnTheWay, Recorded, Spaced, Shows, HeldBy, L.Pins, Loggable, Cache.Valid, Cache.Clean;
      if pid !in books.used || exists w | w in books.dirty :: w in books.holder && books.holder[w].pid == pid {
        return Unfit;
      }
      SpaceEnd(past.steps, budget, log.n, log.outstanding, books.used, pid);
      var doCommit := log.EndOp();
      books := books.(used := books.used - {pid});
      past := past.(steps := past.steps + [LogSpace.End(pid)]);
      return Done;
    }

    /** brelse of a block whose changes, if any, are logged. */
    method Brelse(pid: nat, w: Word) returns (r: Outcome)
      requires Inv()
      modifies this`books, log.cache
      ensures Inv() && r == Fate(log.layout, budget, log.cache.nbuf, old(Now()), Event.Brelse(pid, w))
      ensures Passes(log.layout, budget, log.cache.nbuf, old(Now()), Event.Brelse(pid, w), Now())
    {
      hide InUse, Fits, Recorded, Spaced;
      if !(w in books.holder && books.holder[w].pid == pid && w !in books.dirty) {
        return Unfit;
      }
      Give(w);
      books := books.(holder := books.holder - {w});
      return Done;
    }

    method Give(w: Word)
      requires Fits(books, past.base) && w in books.holder && w !in books.dirty
      modifies log.cache
      ensures Fits(books.(holder := books.holder - {w}), past.base) && log.cache.disk == old(log.cache.disk)
    {
      hide OnTheWay, Shows, HeldBy, L.Pins, Loggable, Seen, Cache.Clean, Ordered, Linked, RecentFirst,
        OneBufferPerBlock, Counted;
      ghost var c := log.cache;
      HeldAt(log.layout, c.id, c.valid, c.locked, c.users, books.holder, w);
      Releasable(w);
      HeldLess(log.layout, c.id, c.valid, c.locked, c.users, books.holder, w);
      log.cache.Release(books.holder[w].buf);
    }

    // A held block that no one else refers to is as the disk has it.
    lemma Releasable(w: Word)
      requires Fits(books, past.base) && w in books.holder && w !in books.dirty
      ensures var b := books.holder[w].buf;
        b < log.cache.nbuf && (log.cache.refcnt[b] == 1 ==> log.cache.data[b] == log.cache.disk[log.layout.Home(w)])
    {
      hide Recorded, Spaced, HeldBy, L.Pins, Loggable, Seen, Cache.Clean, Ordered, Linked, RecentFirst, OnTheWay;
      var c, l, homes, t := log.cache, log.layout, log.block[..log.n], Unpinned(log.n, books.written);
      HeldAt(l, c.id, c.valid, c.locked, c.users, books.holder, w);
      var b := books.holder[w].buf;
      SeenCached(c.id, c.valid, c.data, c.disk, b);
      assert c.data[b] == Expected(l, c.disk, books.logged, books.dirty, l.Home(w));
      if w in books.logged {
        var u := LoggedWhere(l, past.base, homes, books.logged, books.written, c.disk, w);
        if u >= t {
          IsPinned(l, homes, log.slot, c.id, c.valid, c.pins, t, u, b);
        }
      }
    }

    /**
     One more step of the commit: a round of write_log, the header write, a
     round of install_trans, the write that erases the log, or the end.  It
     waits for a block that some reader holds.
     */
    method CommitMore() returns (r: Outcome)
      requires Inv()
      modifies this`books, this`past, log`n, log`slot, log`committing, log.cache
      ensures Safe() && (!r.NoBuffers? ==> Inv())
      ensures past.first == old(past.first)
      ensures r == Fate(log.layout, budget, log.cache.nbuf, old(Now()), Commit)
      ensures if r.NoBuffers? then Same() else Passes(log.layout, budget, log.cache.nbuf, old(Now()), Commit, Now())
    {
      hide InUse, OnTheWay, Recorded, Spaced, Shows, HeldBy, Tidy, L.Pins, Loggable, Cache.Valid, Cache.Clean, Survives,
        WritesOne;
      InvSafe();
      if !log.committing {
        return Unfit;
      }
      if log.n == 0 {
        r := Over();
      } else if books.written < log.n {
        r := LogRound();
      } else if books.written == log.n {
        r := HeadRound();
      } else if books.written <= 2 * log.n {
        r := InstallRound();
      } else {
        r := EraseRound();
      }
      assert log.n == 0 ==> log.block[..log.n] == [];
      if !r.NoBuffers? {
        InvSafe();
      }
    }

    method Over() returns (r: Outcome)
      requires Inv() && log.committing && log.n == 0
      modifies this`past, log`committing
      ensures Inv() && r == Done && !log.committing && past == old(past).(steps := past.steps)
      ensures WroteOne()
    {
      hide OnTheWay, Recorded, Spaced, Shows, HeldBy, L.Pins, Loggable, Cache.Valid, Cache.Clean;
      Unwritten(log.layout, past.base, log.block[..log.n], books.logged, books.written, log.cache.disk);
      AtStart(log.layout, past.base, log.block[..log.n], books.logged, log.cache.disk);
      SpaceDone(past.steps, budget, log.n, log.outstanding, books.used);
      log.Resume();
      past := past.(steps := past.steps + [LogSpace.CommitDone]);
      return Done;
    }

    /** While no block has changes that are not logged, a commit writes what was logged last. */
    lemma PendingIsLogged(t: nat)
      requires Fits(books, past.base) && books.dirty == map[] && t < log.n
      ensures log.block[t] in books.logged && log.Pending()[t] == books.logged[log.block[t]]
    {
      hide OnTheWay, Shows, HeldBy, L.Pins, Loggable, Seen, Cache.Clean, Ordered, Linked, RecentFirst,
        OneBufferPerBlock, Counted;
      var c, l, homes := log.cache, log.layout, log.block[..log.n];
      assert homes[t] == log.block[t];
      InLog(l, past.base, homes, books.logged, books.written, c.disk, t);
      ShowsHome(l, c.id, c.valid, c.data, c.disk, books.logged, books.dirty, homes[t]);
    }

    /** commit from its first block write to its last, in one go. */
    method CommitAll() returns (r: Outcome)
      requires Inv()
      modifies this`books, this`past, log`n, log`slot, log.cache
      ensures Inv() && past.first == old(past.first)
      ensures r == Fate(log.layout, budget, log.cache.nbuf, old(Now()), Event.CommitAll)
      ensures Passes(log.layout, budget, log.cache.nbuf, old(Now()), Event.CommitAll, Now())
    {
      hide InUse, Fits, Recorded, Spaced, CommitAt, Loggable, Updated, Layout.OnDisk;
      if !(log.committing && log.n > 0 && books.written == 0 && books.holder == map[] && log.n < log.cache.nbuf) {
        return Unfit;
      }
      Crowded();
      ghost var homes := log.block[..log.n];
      CommitOnce();
      AllCommitted(log.layout, past, homes, books.logged, log.cache.disk);
      SpaceErased(past.steps, budget, |homes|, log.outstanding, books.used);
      past := past.(base := log.cache.disk, commits := past.commits + [books.logged]);
      books := books.(logged := map[]);
      return Done;
    }

    method CommitOnce()
      requires Fits(books, past.base) && books.written == 0 && log.n > 0
      requires books.dirty == map[] && books.holder == map[] && log.Spare()
      modifies log`n, log`slot, log.cache
      ensures Fits(books.(logged := map[]), log.cache.disk)
      ensures log.n == 0 && WritesAll(log.layout, old(log.cache.disk), old(log.block[..log.n]), books.logged,
        log.cache.disk)
      ensures Updated(log.layout, past.base, log.cache.disk, old(log.block[..log.n]),
        ContentsOf(books.logged, old(log.block[..log.n])))
    {
      hide OnTheWay, Shows, HeldBy, L.Pins, Loggable, Seen, Lists, Recoverable, Updated, Ordered, Linked, RecentFirst,
        OneBufferPerBlock, WithHomes, L.CommitTrace;
      ghost var c, l, homes := log.cache, log.layout, log.block[..log.n];
      AtStart(l, past.base, homes, books.logged, c.disk);
      NoneHeld(l, c.id, c.valid, c.locked, c.users, books.holder);
      forall t | 0 <= t < log.n ensures homes[t] in books.logged && log.Pending()[t] == books.logged[homes[t]] {
        PendingIsLogged(t);
      }
      assert log.Pending() == ContentsOf(books.logged, homes);
      var ok, k := log.Commit();
      assert log.block[..log.n] == [];
      L.PinsDone(l, [], log.slot, c.id, c.valid, c.pins);
      NoHolder(l, c.id, c.valid, c.locked, c.users, c.refcnt, c.pins);
      NotStarted(l, c.disk, [], map[]);
      ShowsDisk(l, c.id, c.valid, c.data, c.disk, c.refcnt);
    }

    method LogRound() returns (r: Outcome)
      requires Inv() && log.committing && books.written < log.n
      modifies this`books, log.cache
      ensures (!r.Done? ==> log.cache.disk == old(log.cache.disk)) && (!r.NoBuffers? ==> Inv())
      ensures books == if r.Done? then old(books).(written := old(books.written) + 1) else old(books)
      ensures r.Waits? <==> old(log.block[books.written] in books.holder)
      ensures r != Unfit
      ensures !r.Waits? ==> (r.NoBuffers? <==> old(log.cache.nbuf <= |InUse(log.block[..log.n], books)|))
      ensures r.Done? ==> WroteOne()
    {
      hide InUse, Fits, Recorded, Spaced, Moves, Tidy, WritesOne;
      if log.block[books.written] in books.holder {
        return Waits;
      }
      Crowded();
      SlotReached(books.written);
      WhileCommitting(books);
      var ok := LogOnce();
      if !ok {
        return NoBuffers;
      }
      StillUncommitted(log.layout, past, log.n, books.logged, books.written, books.written + 1);
      books := books.(written := books.written + 1);
      return Done;
    }

    method LogOnce() returns (ok: bool)
      requires Fits(books, past.base) && books.written < log.n && books.dirty == map[]
      requires log.block[books.written] !in books.holder
      modifies log.cache
      ensures if ok then Fits(books.(written := books.written + 1), past.base)
        else log.cache.disk == old(log.cache.disk)
      ensures (old(log.Spare()) ==> ok) && (ok ==> old(log.cache.Reach(log.layout.Slot(books.written))))
      ensures ok ==> WroteOne()
    {
      hide OnTheWay, Recorded, Spaced, Shows, HeldBy, L.Pins, Loggable, Seen, Cache.Clean, Lists,
        Ordered, Linked, RecentFirst, OneBufferPerBlock, Counted, WithHomes, Homes, Count;
      ghost var c, l, homes := log.cache, log.layout, log.block[..log.n];
      ghost var id, valid, locked, users, data, disk := c.id, c.valid, c.locked, c.users, c.data, c.disk;
      var t := books.written;
      ghost var w := log.block[t];
      assert homes[t] == w;
      InLog(l, past.base, homes, books.logged, t, disk, t);
      LogFree(l, id, valid, locked, users, books.holder, l.Slot(t));
      Unlocked(l, id, valid, locked, users, books.holder, w);
      ShowsHome(l, id, valid, data, disk, books.logged, books.dirty, w);
      Referenced(c.refcnt, users, c.pins, locked);
      ok := log.LogOne(t);
      if !ok {
        return;
      }
      LoggedOne(l, past.base, homes, books.logged, t, disk);
      SameUsers(c.refcnt, users, c.pins, locked, c.users, c.locked);
      HeldKept(l, id, valid, locked, users, books.holder, c.id, c.valid, c.users);
      ShowsLog(l, id, valid, data, disk, c.id, c.valid, c.data, books.logged, books.dirty, l.Slot(t), books.logged[w]);
    }

    method HeadRound() returns (r: Outcome)
      requires Inv() && log.committing && books.written == log.n > 0
      modifies this`books, this`past, log.cache
      ensures if r.NoBuffers? then log.cache.disk == old(log.cache.disk) else r.Done? && Inv()
      ensures books == if r.Done? then old(books).(written := old(books.written) + 1) else old(books)
      ensures past == if r.Done? then old(past).(commits := old(past.commits) + [books.logged]) else old(past)
      ensures r.NoBuffers? <==> old(log.cache.nbuf <= |InUse(log.block[..log.n], books)|)
      ensures r.Done? ==> WroteOne()
    {
      hide InUse, Fits, Recorded, Spaced, Moves, Tidy, WritesOne;
      Crowded();
      Reached(log.layout.Header());
      WhileCommitting(books);
      var ok := HeadOnce();
      if !ok {
        return NoBuffers;
      }
      NowCommitted(log.layout, past, log.n, books.logged);
      past := past.(commits := past.commits + [books.logged]);
      books := books.(written := books.written + 1);
      return Done;
    }

    method HeadOnce() returns (ok: bool)
      requires Fits(books, past.base) && books.written == log.n > 0 && books.dirty == map[]
      modifies log.cache
      ensures if ok then Fits(books.(written := books.written + 1), past.base)
        else log.cache.disk == old(log.cache.disk)
      ensures (old(log.Spare()) ==> ok) && (ok ==> old(log.cache.Reach(log.layout.Header())))
      ensures ok ==> WroteOne()
    {
      hide OnTheWay, Recorded, Spaced, Shows, HeldBy, L.Pins, Loggable, Seen, Cache.Clean, Lists,
        Ordered, Linked, RecentFirst, OneBufferPerBlock, Counted, WithHomes, Homes, Count;
      ghost var c, l, homes := log.cache, log.layout, log.block[..log.n];
      ghost var id, valid, locked, users, data, disk := c.id, c.valid, c.locked, c.users, c.data, c.disk;
      assert books.written == |homes| && Unpinned(log.n, books.written + 1) == 0;
      InLog(l, past.base, homes, books.logged, books.written, disk, 0);
      LogFree(l, id, valid, locked, users, books.holder, l.Header());
      Referenced(c.refcnt, users, c.pins, locked);
      ok := log.WriteHead();
      if !ok {
        return;
      }
      ghost var h := WithHomes(disk[l.Header()], homes);
      assert c.disk == disk[l.Header() := h];
      WroteHead(l, past.base, homes, books.logged, disk);
      SameUsers(c.refcnt, users, c.pins, locked, c.users, c.locked);
      HeldKept(l, id, valid, locked, users, books.holder, c.id, c.valid, c.users);
      ShowsLog(l, id, valid, data, disk, c.id, c.valid, c.data, books.logged, books.dirty, l.Header(), h);
    }

    method InstallRound() returns (r: Outcome)
      requires Inv() && log.committing && log.n < books.written <= 2 * log.n
      modifies this`books, log.cache
      ensures (!r.Done? ==> log.cache.disk == old(log.cache.disk)) && (!r.NoBuffers? ==> Inv())
      ensures books == if r.Done? then old(books).(written := old(books.written) + 1) else old(books)
      ensures r.Waits? <==> old(log.block[books.written - log.n - 1] in books.holder)
      ensures r != Unfit
      ensures !r.Waits? ==> (r.NoBuffers? <==> old(log.cache.nbuf <= |InUse(log.block[..log.n], books)|))
      ensures r.Done? ==> WroteOne()
    {
      hide InUse, Fits, Recorded, Spaced, Moves, Tidy, WritesOne;
      if log.block[books.written - log.n - 1] in books.holder {
        return Waits;
      }
      Crowded();
      SlotReached(books.written - log.n - 1);
      WhileCommitting(books);
      var ok := InstallOnce();
      if !ok {
        return NoBuffers;
      }
      StillUncommitted(log.layout, past, log.n, books.logged, books.written, books.written + 1);
      books := books.(written := books.written + 1);
      return Done;
    }

    method InstallOnce() returns (ok: bool)
      requires Fits(books, past.base) && log.n < books.written <= 2 * log.n && books.dirty == map[]
      requires log.block[books.written - log.n - 1] !in books.holder
      modifies log.cache
      ensures if ok then Fits(books.(written := books.written + 1), past.base)
        else log.cache.disk == old(log.cache.disk)
      ensures (old(log.Spare()) ==> ok) && (ok ==> old(log.cache.Reach(log.layout.Slot(books.written - log.n - 1))))
      ensures ok ==> WroteOne()
    {
      hide OnTheWay, Recorded, Spaced, Shows, HeldBy, L.Pins, Loggable, Seen, Cache.Clean, Lists,
        Ordered, Linked, RecentFirst, OneBufferPerBlock, Counted, WithHomes, Homes, Count;
      ghost var c, l, homes := log.cache, log.layout, log.block[..log.n];
      ghost var id, valid, locked, users, data, disk := c.id, c.valid, c.locked, c.users, c.data, c.disk;
      var t := books.written - log.n - 1;
      ghost var w := log.block[t];
      assert homes[t] == w && books.written == |homes| + 1 + t;
      InLog(l, past.base, homes, books.logged, books.written, disk, t);
      SlotHolds(l, past.base, homes, books.logged, t, disk);
      LogFree(l, id, valid, locked, users, books.holder, l.Slot(t));
      Unlocked(l, id, valid, locked, users, books.holder, w);
      Referenced(c.refcnt, users, c.pins, locked);
      ok := log.InstallAtCommit(t);
      if !ok {
        return;
      }
      assert c.disk == disk[l.Home(w) := books.logged[w]];
      InstalledOne(l, past.base, homes, books.logged, t, disk);
      HeldKept(l, id, valid, locked, users, books.holder, c.id, c.valid, c.users);
      ShowsInstalled(l, id, valid, data, disk, c.id, c.valid, c.data, books.logged, books.dirty, w);
    }

    method EraseRound() returns (r: Outcome)
      requires Inv() && log.committing && books.written == 2 * log.n + 1 && log.n > 0
      modifies this`books, this`past, log`n, log`slot, log.cache
      ensures if r.NoBuffers? then log.cache.disk == old(log.cache.disk) else r.Done? && Inv()
      ensures books == if r.Done? then old(books).(logged := map[], written := 0) else old(books)
      ensures r.Done? ==> log.n == 0
      ensures past == old(past).(base := if r.Done? then log.cache.disk else old(past.base))
      ensures r.NoBuffers? <==> old(log.cache.nbuf <= |InUse(log.block[..log.n], books)|)
      ensures r.Done? ==> WroteOne()
    {
      hide InUse, Fits, Recorded, Spaced, Moves, Tidy, WritesOne;
      Crowded();
      Reached(log.layout.Header());
      ghost var homes := log.block[..log.n];
      WhileCommitting(books);
      var ok := EraseOnce();
      if !ok {
        return NoBuffers;
      }
      CommittedAll(log.layout, past, homes, books.logged, log.cache.disk);
      SpaceErased(past.steps, budget, |homes|, log.outstanding, books.used);
      past := past.(base := log.cache.disk);
      books := books.(logged := map[], written := 0);
      return Done;
    }

    method EraseOnce() returns (ok: bool)
      requires Fits(books, past.base) && books.written == 2 * log.n + 1 && log.n > 0 && books.dirty == map[]
      modifies log`n, log`slot, log.cache
      ensures if ok then Fits(books.(logged := map[], written := 0), log.cache.disk)
        else log.cache.disk == old(log.cache.disk)
      ensures ok ==> log.n == 0 && Lists(old(log.block[..log.n]), books.logged)
      ensures ok ==>
        Updated(log.layout, past.base, log.cache.disk, old(log.block[..log.n]),
          ContentsOf(books.logged, old(log.block[..log.n])))
      ensures (old(log.Spare()) ==> ok) && (ok ==> old(log.cache.Reach(log.layout.Header())))
      ensures ok ==> WroteOne()
    {
      hide OnTheWay, Recorded, Spaced, Shows, HeldBy, L.Pins, Loggable, Seen, Cache.Clean, Lists,
        Ordered, Linked, RecentFirst, OneBufferPerBlock, Counted, WithHomes, Homes, Count;
      ghost var c, l, homes := log.cache, log.layout, log.block[..log.n];
      ghost var id, valid, locked, users, data, disk := c.id, c.valid, c.locked, c.users, c.data, c.disk;
      assert books.written == 2 * |homes| + 1 && Unpinned(log.n, books.written) == |homes|;
      InLog(l, past.base, homes, books.logged, books.written, disk, 0);
      LogFree(l, id, valid, locked, users, books.holder, l.Header());
      L.PinsDone(l, homes, log.slot, id, valid, c.pins);
      Referenced(c.refcnt, users, c.pins, locked);
      ok := log.Erase();
      if !ok {
        return;
      }
      Erased(l, past.base, homes, books.logged, disk);
      SameUsers(c.refcnt, users, c.pins, locked, c.users, c.locked);
      HeldKept(l, id, valid, locked, users, books.holder, c.id, c.valid, c.users);
      ShowsErased(l, id, valid, data, disk, c.id, c.valid, c.data, books.logged, books.dirty, past.base, homes, c.disk);
      assert log.block[..log.n] == [];
      NotStarted(l, c.disk, [], map[]);
    }

    method Step(e: Event) returns (r: Outcome)
      requires Inv()
      modifies this, log, log.cache
      ensures Safe() && (!r.NoBuffers? ==> Inv()) && past.first == old(past.first)
      ensures r == Fate(log.layout, budget, log.cache.nbuf, old(Now()), e)
      ensures if r.NoBuffers? then Same() && log.cache.nbuf <= |books.holder| + 28
        else Passes(log.layout, budget, log.cache.nbuf, old(Now()), e, Now())
      ensures old(past.commits) <= past.commits
    {
      hide InUse, Fits, Recorded, Spaced, Tidy, Survives, Passes, Fate;
      SpaceSmall(past.steps, budget, log.n, log.outstanding, log.committing, books.used);
      Crowded();
      match e {
        case Begin(pid) => r := BeginOp(pid);
        case Bread(pid, w) => r := Bread(pid, w);
        case Store(pid, w, contents) => r := Store(pid, w, contents);
        case LogWrite(pid, w) => r := LogWrite(pid, w);
        case Brelse(pid, w) => r := Brelse(pid, w);
        case End(pid) => r := EndOp(pid);
        case Commit => r := CommitMore();
        case CommitAll => r := CommitAll();
      }
      if !e.Commit? {
        InvSafe();
      }
      if r.NoBuffers? {
        PanicFull(log.layout, budget, log.cache.nbuf, old(Now()), e);
      } else {
        CommitsGrow(log.layout, budget, log.cache.nbuf, old(Now()), e, Now());
      }
    }

    /**
     Any sequence of events.  Every event that was taken did what it should,
     one that must wait or does not fit changed nothing, and at every moment a
     crash leaves exactly the transactions committed by then.  A run stops
     early only in bget's panic, with all but 28 of the buffers held.
     */
    method Run(script: seq<Event>) returns (done: nat, ghost moments: seq<Moment>)
      requires Inv()
      modifies this, log, log.cache
      ensures done <= |script| && Safe() && (done == |script| ==> Inv())
      ensures past.first == old(past.first) && old(past.commits) <= past.commits
      ensures |moments| == done + 1 && moments[0] == old(Now())
      ensures moments[done].disk == log.cache.disk && moments[done].commits == past.commits
      ensures moments[done].books == books && (done == |script| ==> moments[done] == Now())
      ensures forall k :: 0 <= k < done ==>
        Passes(log.layout, budget, log.cache.nbuf, moments[k], script[k], moments[k + 1])
      ensures forall k :: 0 <= k <= done ==> Survives(log.layout, past.first, moments[k].commits, moments[k].disk)
      ensures done < |script| ==>
        Fate(log.layout, budget, log.cache.nbuf, moments[done], script[done]).NoBuffers?
          && log.cache.nbuf <= |books.holder| + 28
    {
      hide Fits, Recorded, Spaced, Tidy, Survives, Passes, Fate;
      InvSafe();
      done, moments := 0, [Now()];
      while done < |script|
        invariant done <= |script| && Inv() && Safe()
        invariant past.first == old(past.first) && old(past.commits) <= past.commits
        invariant |moments| == done + 1 && moments[0] == old(Now()) && moments[done] == Now()
        invariant forall k :: 0 <= k < done ==>
          Passes(log.layout, budget, log.cache.nbuf, moments[k], script[k], moments[k + 1])
        invariant forall k :: 0 <= k <= done ==> Survives(log.layout, past.first, moments[k].commits, moments[k].disk)
      {
        var r := Step(script[done]);
        if r.NoBuffers? {
          return;
        }
        moments := moments + [Now()];
        done := done + 1;
      }
    }
  }

  lemma HeldAt(l: Layout, id: seq<BlockId>, valid: seq<bool>, locked: seq<bool>, users: seq<nat>, holder: map<Word,
               Held>, w: Word)
    requires HeldBy(l, id, valid, locked, users, holder) && w in holder
    ensures var b := holder[w].buf;
      && b < |id| == |valid| == |locked| == |users| && id[b] == l.Home(w) && valid[b] && locked[b] && users[b] == 1
      && !l.Inside(l.Home(w))
  {
  }

  lemma HeldLess(l: Layout, id: seq<BlockId>, valid: seq<bool>, locked: seq<bool>, users: seq<nat>, holder: map<Word,
                 Held>, w: Word)
    requires HeldBy(l, id, valid, locked, users, holder) && w in holder
    ensures var b := holder[w].buf;
      b < |users| == |locked| && users[b] == 1 && HeldBy(l, id, valid, locked[b := false], users[b := 0], holder - {w})
  {
  }

  // Where a logged block is in the transaction, and what the disk has for it once it is installed.
  lemma LoggedWhere(l: Layout, base: Image, homes: seq<Word>, logged: map<Word, Block>, written: nat, disk: Image,
                    w: Word)
    returns (u: nat)
    requires OnTheWay(l, base, homes, logged, written, disk) && w in logged
    ensures u < |homes| && homes[u] == w
    ensures u < Unpinned(|homes|, written) ==> l.Home(w) in disk && disk[l.Home(w)] == logged[w]
  {
    u :| 0 <= u < |homes| && homes[u] == w;
    if written > |homes| {
      Installing(l, base, homes, logged, written, disk);
    }
  }

  lemma IsPinned(l: Layout, homes: seq<Word>, slot: seq<nat>, id: seq<BlockId>, valid: seq<bool>, pins: seq<nat>,
                 t: nat, u: nat, b: nat)
    requires |id| == |valid| == |pins| && t <= u < |homes| && L.Pins(l, homes, slot, id, valid, pins, t)
    requires b < |id| && id[b] == l.Home(homes[u]) && l.dev != 0 && OneBufferPerBlock(id)
    ensures pins[b] == 1
  {
    assert slot[t..][u - t] == slot[u];
  }

  lemma HeldKept(l: Layout, id: seq<BlockId>, valid: seq<bool>, locked: seq<bool>, users: seq<nat>, holder: map<Word,
                 Held>,
                 id': seq<BlockId>, valid': seq<bool>, users': seq<nat>)
    requires HeldBy(l, id, valid, locked, users, holder) && |id'| == |valid'| == |users'| == |id|
    requires forall x :: 0 <= x < |id| ==> users'[x] == users[x]
    requires forall x :: 0 <= x < |id| && locked[x] ==> id'[x] == id[x] && (valid[x] ==> valid'[x])
    ensures HeldBy(l, id', valid', locked, users', holder)
  {
  }

  lemma Referenced(refcnt: seq<nat>, users: seq<nat>, pins: seq<nat>, locked: seq<bool>)
    requires Counted(refcnt, users, pins, locked)
    ensures |refcnt| == |pins| == |locked| && forall x :: 0 <= x < |refcnt| && (locked[x] || pins[x] > 0) ==>
      refcnt[x] > 0
  {
  }

  lemma SameUsers(refcnt: seq<nat>, users: seq<nat>, pins: seq<nat>, locked: seq<bool>, users': seq<nat>,
                  locked': seq<bool>)
    requires Counted(refcnt, users, pins, locked) && Counted(refcnt, users', pins, locked')
    ensures users' == users
  {
  }

  // No process holds a block of the log.
  lemma LogFree(l: Layout, id: seq<BlockId>, valid: seq<bool>, locked: seq<bool>, users: seq<nat>, holder: map<Word,
                Held>, i: BlockId)
    requires HeldBy(l, id, valid, locked, users, holder) && l.Inside(i)
    ensures |id| == |locked| && forall x :: 0 <= x < |id| && id[x] == i ==> !locked[x]
  {
  }

  lemma Unwritten(l: Layout, base: Image, homes: seq<Word>, logged: map<Word, Block>, written: nat, disk: Image)
    requires OnTheWay(l, base, homes, logged, written, disk) && homes == []
    ensures written == 0
  {
  }

  // The t-th slot is in the log, and the t-th block is logged and outside it.
  lemma InLog(l: Layout, base: Image, homes: seq<Word>, logged: map<Word, Block>, written: nat, disk: Image, t: nat)
    requires OnTheWay(l, base, homes, logged, written, disk) && Loggable(l, disk, homes) && l.OnDisk(disk)
      && t < |homes|
    ensures Lists(homes, logged) && l.Inside(l.Slot(t)) && l.Inside(l.Header()) && homes[t] in logged
      && l.Home(homes[t]) in disk && l.Header() in disk
    ensures forall w :: w in logged ==> !l.Inside(l.Home(w))
  {
    forall w | w in logged ensures !l.Inside(l.Home(w)) {
      var u :| 0 <= u < |homes| && homes[u] == w;
    }
  }

  lemma StillUncommitted(l: Layout, past: Past, n: nat, logged: map<Word, Block>, written: nat, written': nat)
    requires Recorded(l, past.first, past.commits, past.base, n, logged, written)
    requires written <= written' <= n || n < written <= written'
    ensures Recorded(l, past.first, past.commits, past.base, n, logged, written')
  {
  }

  lemma ShowsHome(l: Layout, id: seq<BlockId>, valid: seq<bool>, data: seq<Block>, disk: Image,
                  logged: map<Word, Block>, dirty: map<Word, Block>, w: Word)
    requires |id| == |valid| == |data| && Shows(l, id, valid, data, disk, logged, dirty)
    requires l.dev != 0 && l.Home(w) in disk && w in logged && w !in dirty
    ensures Seen(id, valid, data, disk, l.Home(w)) == logged[w]
  {
    hide Seen;
  }

  // A block of the log changes on disk and in the cache alike.
  lemma ShowsLog(l: Layout, id: seq<BlockId>, valid: seq<bool>, data: seq<Block>, disk: Image,
                 id': seq<BlockId>, valid': seq<bool>, data': seq<Block>, logged: map<Word, Block>, dirty: map<Word,
                   Block>,
                 i0: BlockId, x: Block)
    requires |id| == |valid| == |data| && |id'| == |valid'| == |data'| && Shows(l, id, valid, data, disk, logged, dirty)
    requires l.Inside(i0) && forall w :: w in logged || w in dirty ==> !l.Inside(l.Home(w))
    requires forall i :: i in disk[i0 := x] && i.dev != 0 ==>
      Seen(id', valid', data', disk[i0 := x], i) == if i == i0 then x
        else if i in disk then Seen(id, valid, data, disk, i) else x
    requires i0 in disk
    ensures Shows(l, id', valid', data', disk[i0 := x], logged, dirty)
  {
    hide Seen;
    forall i | i in disk[i0 := x] && i.dev != 0
      ensures Seen(id', valid', data', disk[i0 := x], i) == Expected(l, disk[i0 := x], logged, dirty, i)
    {
      if i == i0 && i.dev == l.dev {
        assert i0 == l.Home(i0.blockno);
      }
    }
  }

  // A block of the transaction is installed.
  lemma ShowsInstalled(l: Layout, id: seq<BlockId>, valid: seq<bool>, data: seq<Block>, disk: Image,
                       id': seq<BlockId>, valid': seq<bool>, data': seq<Block>, logged: map<Word, Block>,
                         dirty: map<Word, Block>,
                       w: Word)
    requires |id| == |valid| == |data| && |id'| == |valid'| == |data'| && Shows(l, id, valid, data, disk, logged, dirty)
    requires w in logged && w !in dirty && l.Home(w) in disk
    requires forall i :: i in disk && i.dev != 0 ==>
      Seen(id', valid', data', disk[l.Home(w) := logged[w]], i) == if i == l.Home(w) then logged[w]
        else Seen(id, valid, data, disk, i)
    ensures Shows(l, id', valid', data', disk[l.Home(w) := logged[w]], logged, dirty)
  {
    hide Seen;
  }

  // With every block of the transaction installed, the disk alone shows it.
  lemma ShowsErased(l: Layout, id: seq<BlockId>, valid: seq<bool>, data: seq<Block>, disk: Image,
                    id': seq<BlockId>, valid': seq<bool>, data': seq<Block>, logged: map<Word, Block>, dirty: map<Word,
                      Block>,
                    base: Image, homes: seq<Word>, d: Image)
    requires |id| == |valid| == |data| && |id'| == |valid'| == |data'| && Shows(l, id, valid, data, disk, logged, dirty)
    requires Lists(homes, logged) && Updated(l, base, d, homes, ContentsOf(logged, homes))
    requires l.Header() in disk && l.Header() in d && d == disk[l.Header() := d[l.Header()]]
      && forall w :: w in logged ==> !l.Inside(l.Home(w))
    requires dirty == map[] && l.Inside(l.Header())
    requires forall i :: i in disk && i.dev != 0 ==>
      Seen(id', valid', data', d, i) == if i == l.Header() then d[i] else Seen(id, valid, data, disk, i)
    ensures Shows(l, id', valid', data', d, map[], dirty)
  {
    hide Seen;
    forall i | i in d && i.dev != 0 ensures Seen(id', valid', data', d, i) == d[i] {
      if i != l.Header() && i.dev == l.dev && i.blockno in logged {
        var u :| 0 <= u < |homes| && homes[u] == i.blockno;
        assert l.Home(homes[u]) == i;
      }
    }
  }

  lemma NoneHeld(l: Layout, id: seq<BlockId>, valid: seq<bool>, locked: seq<bool>, users: seq<nat>, holder: map<Word,
                 Held>)
    requires HeldBy(l, id, valid, locked, users, holder) && holder == map[]
    ensures |locked| == |users| && forall b :: 0 <= b < |users| ==> !locked[b] && users[b] == 0
  {
  }

  lemma NoHolder(l: Layout, id: seq<BlockId>, valid: seq<bool>, locked: seq<bool>, users: seq<nat>, refcnt: seq<nat>,
                 pins: seq<nat>)
    requires |id| == |valid| && |locked| == |users| == |id| && forall b :: 0 <= b < |users| ==>
      !locked[b] && users[b] == 0
    requires Counted(refcnt, users, pins, locked) && L.Unpinned(pins)
    ensures HeldBy(l, id, valid, locked, users, map[]) && forall b :: 0 <= b < |refcnt| ==> refcnt[b] == 0
  {
  }

  // With no buffer referenced, readers see the disk.
  lemma ShowsDisk(l: Layout, id: seq<BlockId>, valid: seq<bool>, data: seq<Block>, disk: Image, refcnt: seq<nat>)
    requires |id| == |valid| == |data| == |refcnt| && forall b :: 0 <= b < |refcnt| ==> refcnt[b] == 0
    requires forall b :: 0 <= b < |id| && refcnt[b] == 0 && valid[b] && id[b].dev != 0 && id[b] in disk ==>
      data[b] == disk[id[b]]
    ensures Shows(l, id, valid, data, disk, map[], map[])
  {
  }

  lemma AllCommitted(l: Layout, past: Past, homes: seq<Word>, logged: map<Word, Block>, d: Image)
    requires Recorded(l, past.first, past.commits, past.base, |homes|, logged, 0) && Lists(homes, logged)
    requires Updated(l, past.base, d, homes, ContentsOf(logged, homes))
    ensures Recorded(l, past.first, past.commits + [logged], d, 0, map[], 0)
  {
    assert (past.commits + [logged])[..|past.commits|] == past.commits;
    UpdatedOverlay(l, past.first, past.commits + [logged], past.base, homes, logged, d);
  }

  lemma NowCommitted(l: Layout, past: Past, n: nat, logged: map<Word, Block>)
    requires Recorded(l, past.first, past.commits, past.base, n, logged, n)
    ensures Recorded(l, past.first, past.commits + [logged], past.base, n, logged, n + 1)
  {
    assert (past.commits + [logged])[..|past.commits|] == past.commits;
  }

  lemma CommittedAll(l: Layout, past: Past, homes: seq<Word>, logged: map<Word, Block>, d: Image)
    requires Recorded(l, past.first, past.commits, past.base, |homes|, logged, 2 * |homes| + 1) && Lists(homes, logged)
    requires Updated(l, past.base, d, homes, ContentsOf(logged, homes)) && homes != []
    ensures Recorded(l, past.first, past.commits, d, 0, map[], 0)
  {
    UpdatedOverlay(l, past.first, past.commits, past.base, homes, logged, d);
  }

  lemma ShowsStored(l: Layout, id: seq<BlockId>, valid: seq<bool>, data: seq<Block>, data': seq<Block>, disk: Image,
                    logged: map<Word, Block>, dirty: map<Word, Block>, w: Word, contents: Block)
    requires |id| == |valid| == |data| == |data'| && Shows(l, id, valid, data, disk, logged, dirty)
    requires forall i :: i in disk && i.dev != 0 ==>
      Seen(id, valid, data', disk, i) == if i == l.Home(w) then contents else Seen(id, valid, data, disk, i)
    ensures Shows(l, id, valid, data', disk, logged, dirty[w := contents])
  {
    hide Seen;
  }

  lemma ShowsLogged(l: Layout, id: seq<BlockId>, valid: seq<bool>, data: seq<Block>, disk: Image,
                    logged: map<Word, Block>, dirty: map<Word, Block>, w: Word, contents: Block)
    requires |id| == |valid| == |data| && Shows(l, id, valid, data, disk, logged, dirty)
    requires l.dev != 0 && l.Home(w) in disk && contents == Seen(id, valid, data, disk, l.Home(w))
    ensures Shows(l, id, valid, data, disk, logged[w := contents], dirty - {w})
    ensures contents == Expected(l, disk, logged, dirty, l.Home(w))
  {
    hide Seen;
  }

  lemma AtStart(l: Layout, base: Image, homes: seq<Word>, logged: map<Word, Block>, disk: Image)
    requires OnTheWay(l, base, homes, logged, 0, disk)
    ensures disk == base && Recoverable(l, base) && Count(base[l.Header()]) == 0 && Lists(homes, logged)
  {
    assert ContentsOf(logged, homes)[..0] == [];
  }

  lemma StillRecorded(l: Layout, past: Past, n: nat, logged: map<Word, Block>, n': nat, logged': map<Word, Block>)
    requires Recorded(l, past.first, past.commits, past.base, n, logged, 0)
    ensures Recorded(l, past.first, past.commits, past.base, n', logged', 0)
  {
  }

  lemma Unlocked(l: Layout, id: seq<BlockId>, valid: seq<bool>, locked: seq<bool>, users: seq<nat>, holder: map<Word,
                 Held>, w: Word)
    requires HeldBy(l, id, valid, locked, users, holder)
    ensures |id| == |locked| == |users| && forall x :: 0 <= x < |users| && locked[x] ==> users[x] > 0
    ensures w !in holder ==> forall x :: 0 <= x < |id| && id[x] == l.Home(w) ==> !locked[x]
  {
  }

  lemma HeldMore(l: Layout, id: seq<BlockId>, valid: seq<bool>, locked: seq<bool>, users: seq<nat>, holder: map<Word,
                 Held>,
                 id': seq<BlockId>, valid': seq<bool>, w: Word, pid: nat, b: nat)
    requires HeldBy(l, id, valid, locked, users, holder) && !l.Inside(l.Home(w)) && w !in holder
    requires b < |id| == |valid'| && id' == id[b := l.Home(w)] && !locked[b] && valid'[b]
    requires forall x :: 0 <= x < |id| && locked[x] && valid[x] ==> valid'[x]
    ensures HeldBy(l, id', valid', locked[b := true], users[b := users[b] + 1], holder[w := Held(pid, b)])
  {
  }

  lemma ShowsKept(l: Layout, id: seq<BlockId>, valid: seq<bool>, data: seq<Block>, disk: Image,
                  id': seq<BlockId>, valid': seq<bool>, data': seq<Block>, logged: map<Word, Block>, dirty: map<Word,
                    Block>)
    requires |id| == |valid| == |data| && |id'| == |valid'| == |data'| && Shows(l, id, valid, data, disk, logged, dirty)
    requires forall i :: i in disk && i.dev != 0 ==> Seen(id', valid', data', disk, i) == Seen(id, valid, data, disk, i)
    ensures Shows(l, id', valid', data', disk, logged, dirty)
  {
    hide Seen, Expected;
  }

  // ---- the buffers that cannot be reused

  // What the buffers in use are: a held block's, or a pinned block's.
  ghost predicate Buffered(l: Layout, homes: seq<Word>, slot: seq<nat>, id: seq<BlockId>, valid: seq<bool>,
                           locked: seq<bool>, refcnt: seq<nat>, users: seq<nat>, pins: seq<nat>, b: Books)
  {
    && l.dev != 0 && OneBufferPerBlock(id) && Counted(refcnt, users, pins, locked)
    && HeldBy(l, id, valid, locked, users, b.holder)
    && |id| == |valid| == |pins| && Unpinned(|homes|, b.written) <= |homes|
    && L.Pins(l, homes, slot, id, valid, pins, Unpinned(|homes|, b.written))
  }

  lemma IsTaken(l: Layout, homes: seq<Word>, slot: seq<nat>, id: seq<BlockId>, valid: seq<bool>, locked: seq<bool>,
                refcnt: seq<nat>, users: seq<nat>, pins: seq<nat>, books: Books, b: nat)
    requires Buffered(l, homes, slot, id, valid, locked, refcnt, users, pins, books) && b < |refcnt| && refcnt[b] > 0
    ensures b < |id| && id[b].dev == l.dev && id[b].blockno in InUse(homes, books)
  {
    var t := Unpinned(|homes|, books.written);
    if !locked[b] {
      var u :| 0 <= u < |slot[t..]| && slot[t..][u] == b;
      assert slot[t + u] == b && id[b] == l.Home(homes[t + u]);
    }
  }

  lemma BufferOf(l: Layout, homes: seq<Word>, slot: seq<nat>, id: seq<BlockId>, valid: seq<bool>, locked: seq<bool>,
                 refcnt: seq<nat>, users: seq<nat>, pins: seq<nat>, books: Books, w: Word)
    returns (b: nat)
    requires Buffered(l, homes, slot, id, valid, locked, refcnt, users, pins, books) && w in InUse(homes, books)
    ensures b < |id| == |refcnt| && id[b] == l.Home(w) && refcnt[b] > 0
  {
    if w in books.holder {
      b := books.holder[w].buf;
    } else {
      var t := Unpinned(|homes|, books.written);
      var u :| t <= u < |homes| && homes[u] == w;
      b := slot[u];
      assert slot[t..][u - t] == b;
    }
  }

  // No block of the log is in use.
  lemma UsedOutside(l: Layout, homes: seq<Word>, id: seq<BlockId>, valid: seq<bool>, locked: seq<bool>,
                    users: seq<nat>, disk: Image, books: Books)
    requires HeldBy(l, id, valid, locked, users, books.holder) && Loggable(l, disk, homes)
    ensures forall w :: w in InUse(homes, books) ==> !l.Inside(l.Home(w))
  {
  }

  /** Every buffer is referenced just when as many blocks are in use. */
  lemma AllTaken(l: Layout, homes: seq<Word>, slot: seq<nat>, id: seq<BlockId>, valid: seq<bool>, locked: seq<bool>,
                 refcnt: seq<nat>, users: seq<nat>, pins: seq<nat>, books: Books)
    requires Buffered(l, homes, slot, id, valid, locked, refcnt, users, pins, books)
    ensures |refcnt| == |id|
    ensures |InUse(homes, books)| < |id| <==> exists b :: 0 <= b < |refcnt| && refcnt[b] == 0
  {
    hide L.Pins, HeldBy, InUse;
    var taken: set<nat> := set b: nat | b < |refcnt| && refcnt[b] > 0;
    forall b | b in taken ensures b < |id| && id[b].dev == l.dev && id[b].blockno in InUse(homes, books) {
      IsTaken(l, homes, slot, id, valid, locked, refcnt, users, pins, books, b);
    }
    forall w | w in InUse(homes, books) ensures exists b :: b in taken && id[b] == l.Home(w) {
      var b := BufferOf(l, homes, slot, id, valid, locked, refcnt, users, pins, books, w);
      assert b in taken;
    }
    Matched(l, id, InUse(homes, books), taken);
    if b: nat :| b < |refcnt| && refcnt[b] == 0 {
      Subset(taken, Numbers(|id|) - {b});
    } else {
      Subset(Numbers(|id|), taken);
    }
  }

  // As many blocks as buffers that have them.
  lemma {:induction false} Matched(l: Layout, id: seq<BlockId>, used: set<Word>, buffers: set<nat>)
    requires forall b :: b in buffers ==> b < |id| && id[b].dev == l.dev && id[b].blockno in used
    requires forall w :: w in used ==> exists b :: b in buffers && id[b] == l.Home(w)
    requires forall a, b :: a in buffers && b in buffers && id[a] == id[b] ==> a == b
    ensures |used| == |buffers|
    decreases buffers
  {
    if buffers == {} {
      assert used == {};
    } else {
      var b :| b in buffers;
      var w: Word := id[b].blockno;
      forall v | v in used - {w} ensures exists a :: a in buffers - {b} && id[a] == l.Home(v) {
        var a :| a in buffers && id[a] == l.Home(v);
        assert a in buffers - {b};
      }
      Matched(l, id, used - {w}, buffers - {b});
    }
  }

  ghost function Numbers(n: nat): (s: set<nat>)
    ensures |s| == n && forall b: nat :: b in s <==> b < n
  {
    if n == 0 then {} else Numbers(n - 1) + {n - 1}
  }

  lemma InUseSize(homes: seq<Word>, b: Books)
    ensures |InUse(homes, b)| <= |b.holder| + |homes|
  {
    TailSize(homes, Unpinned(|homes|, b.written));
  }

  lemma {:induction false} TailSize(homes: seq<Word>, t: nat)
    ensures |set u | t <= u < |homes| :: homes[u]| <= |homes|
    decreases |homes|
  {
    var tail := set u | t <= u < |homes| :: homes[u];
    if |homes| > t {
      var m := |homes| - 1;
      TailSize(homes[..m], t);
      var less := set u | t <= u < m :: homes[..m][u];
      assert tail == less + {homes[m]};
    } else {
      assert tail == {};
    }
  }

  // ---- the admission counters, step by step

  lemma SpaceBegin(steps: seq<LogSpace.Step>, budget: nat, n: nat, outstanding: int, used: map<nat, nat>, pid: nat)
    requires Spaced(steps, budget, n, outstanding, false, used) && pid !in used
      && LogSpace.Admits(n, outstanding, false)
    ensures Spaced(steps + [LogSpace.Begin(pid)], budget, n, outstanding + 1, false, used[pid := 0])
  {
    LogSpace.Extends(steps, LogSpace.Begin(pid), budget);
  }

  /** An operation within its budget never meets the panics of log_write. */
  lemma SpaceWrite(steps: seq<LogSpace.Step>, budget: nat, n: nat, outstanding: int, used: map<nat, nat>, pid: nat,
                   isNew: bool)
    requires Spaced(steps, budget, n, outstanding, false, used) && budget < MAXOPBLOCKS
    requires pid in used && (isNew ==> used[pid] < budget)
    ensures n < LOGSIZE && n < LogSpace.NLOG - 1 && outstanding >= 1
    ensures Spaced(steps + [LogSpace.Write(pid, isNew)], budget, if isNew then n + 1 else n, outstanding, false,
                   if isNew then used[pid := used[pid] + 1] else used)
  {
    var step := LogSpace.Write(pid, isNew);
    LogSpace.RunKeepsInv(steps, budget);
    LogSpace.StepKeepsInv(LogSpace.After(steps), step, budget);
    LogSpace.Extends(steps, step, budget);
  }

  /** The last operation to end finds none beside it. */
  lemma SpaceEnd(steps: seq<LogSpace.Step>, budget: nat, n: nat, outstanding: int, used: map<nat, nat>, pid: nat)
    requires Spaced(steps, budget, n, outstanding, false, used) && budget < MAXOPBLOCKS && pid in used
    ensures Spaced(steps + [LogSpace.End(pid)], budget, n, outstanding - 1, outstanding == 1, used - {pid})
    ensures outstanding == 1 <==> used - {pid} == map[]
  {
    var step := LogSpace.End(pid);
    LogSpace.RunKeepsInv(steps, budget);
    LogSpace.StepKeepsInv(LogSpace.After(steps), step, budget);
    LogSpace.Extends(steps, step, budget);
  }

  lemma SpaceErased(steps: seq<LogSpace.Step>, budget: nat, n: nat, outstanding: int, used: map<nat, nat>)
    requires Spaced(steps, budget, n, outstanding, true, used)
    ensures Spaced(steps, budget, 0, outstanding, true, used)
  {
  }

  lemma SpaceDone(steps: seq<LogSpace.Step>, budget: nat, n: nat, outstanding: int, used: map<nat, nat>)
    requires Spaced(steps, budget, n, outstanding, true, used)
    ensures Spaced(steps + [LogSpace.CommitDone], budget, 0, outstanding, false, used)
  {
    LogSpace.Extends(steps, LogSpace.CommitDone, budget);
  }

  lemma SpaceSmall(steps: seq<LogSpace.Step>, budget: nat, n: nat, outstanding: int, committing: bool, used: map<nat,
                   nat>)
    requires Spaced(steps, budget, n, outstanding, committing, used) && budget < MAXOPBLOCKS
    ensures n <= 28
  {
    LogSpace.LogStaysSmall(steps, budget);
  }

  // ---- one life after the other

  /** One life of the machine: boots whose recovery loses power after so many block writes, then one that runs. */
  datatype Life = Life(cuts: seq<nat>, script: seq<Event>)

  lemma UntilRestarts(l: Layout, d: Image, power: nat)
    requires Recoverable(l, d)
    ensures Recoverable(l, RecoveryUntil(l, d, power))
    ensures Recovered(l, RecoveryUntil(l, d, power)) == Recovered(l, d)
  {
    hide Loggable, RecoveryAt, Recovered;
    var last := Count(d[l.Header()]) + 1;
    RecoveryRestarts(l, d, if power < last then power else last);
  }

  /** What recoveries cut short, one after the other, leave. */
  ghost function Cut(l: Layout, d: Image, cuts: seq<nat>): (r: Image)
    requires Recoverable(l, d)
    ensures Recoverable(l, r) && Recovered(l, r) == Recovered(l, d)
  {
    if cuts == [] then d
    else
      var m := |cuts| - 1;
      var x := Cut(l, d, cuts[..m]);
      UntilRestarts(l, x, cuts[m]);
      RecoveryUntil(l, x, cuts[m])
  }

  // A machine that has just booted.
  ghost function Awake(disk: Image): Moment {
    Moment(disk, [], 0, false, Books(map[], map[], map[], map[], 0), [])
  }

  // The moments of a life that finds the disk d: its script step by step, to its end or to bget's panic.
  ghost predicate Lived(l: Layout, budget: nat, d: Image, life: Life, ms: seq<Moment>) {
    && Recoverable(l, d) && 0 < |ms| <= |life.script| + 1 && ms[0] == Awake(Recovered(l, Cut(l, d, life.cuts)))
    && (forall k :: 0 <= k < |ms| - 1 ==> Passes(l, budget, NBUF, ms[k], life.script[k], ms[k + 1]))
    && (|ms| <= |life.script| ==>
      && Fate(l, budget, NBUF, ms[|ms| - 1], life.script[|ms| - 1]).NoBuffers?
      && NBUF <= |ms[|ms| - 1].books.holder| + 28)
  }

  ghost function Last(ms: seq<Moment>): Moment
    requires ms != []
  {
    ms[|ms| - 1]
  }

  // The disk that the first i lives leave, and what they have committed.
  ghost function DiskAfter(disk: Image, lives: seq<seq<Moment>>, i: nat): Image
    requires i <= |lives|
  {
    if i == 0 || lives[i - 1] == [] then disk else Last(lives[i - 1]).disk
  }

  ghost function CommitsAfter(lives: seq<seq<Moment>>, i: nat): seq<map<Word, Block>>
    requires i <= |lives|
  {
    if i == 0 then []
    else CommitsAfter(lives, i - 1) + if lives[i - 1] == [] then [] else Last(lives[i - 1]).commits
  }

  lemma {:induction false} LivesMore(disk: Image, lives: seq<seq<Moment>>, ms: seq<Moment>, i: nat)
    requires i <= |lives|
    ensures DiskAfter(disk, lives + [ms], i) == DiskAfter(disk, lives, i)
    ensures CommitsAfter(lives + [ms], i) == CommitsAfter(lives, i)
    decreases i
  {
    if i > 0 {
      LivesMore(disk, lives, ms, i - 1);
    }
  }

  lemma LivesNow(disk: Image, lives: seq<seq<Moment>>, ms: seq<Moment>)
    requires ms != []
    ensures DiskAfter(disk, lives + [ms], |lives| + 1) == Last(ms).disk
    ensures CommitsAfter(lives + [ms], |lives| + 1) == CommitsAfter(lives, |lives|) + Last(ms).commits
  {
    LivesMore(disk, lives, ms, |lives|);
  }

  /** main and initlog after a crash or a clean start: a new cache, and the log recovered. */
  method Boot(disk: Image, layout: Layout, budget: nat) returns (sys: System)
    requires layout.dev != 0 && layout.size == LogSpace.NLOG && Recoverable(layout, disk) && budget < MAXOPBLOCKS
    ensures fresh(sys) && fresh(sys.log) && fresh(sys.log.cache) && sys.Inv() && sys.log.layout == layout
    ensures sys.past == Past(Recovered(layout, disk), [], Recovered(layout, disk), []) && sys.log.cache.nbuf == NBUF
    ensures sys.budget == budget && sys.Now() == Awake(Recovered(layout, disk))
  {
    hide Recovered, RecoveryAt, L.RecoveryTrace, Loggable;
    var cache := new Cache(NBUF, disk);
    var log := new L.Log(cache, layout);
    var ok, k := log.RecoverFromLog();
    sys := new System(log, budget);
  }

  /** The same, with no power left after so many block writes. */
  method BootUntil(disk: Image, layout: Layout, power: nat) returns (d: Image)
    requires layout.dev != 0 && Recoverable(layout, disk)
    ensures d == RecoveryUntil(layout, disk, power)
  {
    hide RecoveryUntil, Recoverable;
    var cache := new Cache(NBUF, disk);
    var log := new L.Log(cache, layout);
    log.RecoverUntil(power);
    d := cache.disk;
  }

  lemma {:induction false} OverlaySame(l: Layout, d: Image, d': Image, commits: seq<map<Word, Block>>)
    requires SameFiles(l, d, d')
    ensures SameFiles(l, Overlay(l, d, commits), Overlay(l, d', commits))
  {
    if commits != [] {
      OverlaySame(l, d, d', commits[..|commits| - 1]);
    }
  }

  lemma {:induction false} OverlayMore(l: Layout, d: Image, a: seq<map<Word, Block>>, b: seq<map<Word, Block>>)
    ensures Overlay(l, d, a + b) == Overlay(l, Overlay(l, d, a), b)
    decreases |b|
  {
    if b == [] {
      assert a + b == a;
    } else {
      var m := |b| - 1;
      assert (a + b)[..|a + b| - 1] == a + b[..m];
      OverlayMore(l, d, a, b[..m]);
    }
  }

  lemma NextLife(l: Layout, first: Image, commits: seq<map<Word, Block>>, d: Image, more: seq<map<Word, Block>>,
                 d': Image)
    requires Survives(l, first, commits, d) && Survives(l, Recovered(l, d), more, d')
    ensures Survives(l, first, commits + more, d')
  {
    hide Recovered, Overlay, Recoverable;
    OverlayMore(l, first, commits, more);
    OverlaySame(l, Overlay(l, first, commits), Recovered(l, d), more);
  }

  // Whatever a cut recovery leaves has the same files.
  lemma CutSurvives(l: Layout, first: Image, commits: seq<map<Word, Block>>, d: Image, cuts: seq<nat>)
    requires Survives(l, first, commits, d)
    ensures Survives(l, first, commits, Cut(l, d, cuts))
  {
    hide Recovered, Overlay, Recoverable;
  }

  method CutAll(disk: Image, layout: Layout, cuts: seq<nat>) returns (d: Image)
    requires layout.dev != 0 && Recoverable(layout, disk)
    ensures d == Cut(layout, disk, cuts)
  {
    hide Recovered, RecoveryUntil, Recoverable;
    d := disk;
    for i := 0 to |cuts|
      invariant d == Cut(layout, disk, cuts[..i])
    {
      assert cuts[..i + 1][..i] == cuts[..i];
      d := BootUntil(d, layout, cuts[i]);
    }
    assert cuts[..|cuts|] == cuts;
  }

  // One life, from the disk it finds to the one it leaves.
  method Live(disk: Image, layout: Layout, budget: nat, life: Life) returns (d: Image, ghost ms: seq<Moment>)
    requires layout.dev != 0 && layout.size == LogSpace.NLOG && Recoverable(layout, disk) && budget < MAXOPBLOCKS
    ensures Lived(layout, budget, disk, life, ms) && ms != [] && d == Last(ms).disk
    ensures forall k :: 0 <= k < |ms| ==> Survives(layout, Recovered(layout, disk), ms[k].commits, ms[k].disk)
  {
    hide Recovered, Recoverable, System.Inv, System.Safe, Passes, Fate, Survives;
    var found := CutAll(disk, layout, life.cuts);
    var sys := Boot(found, layout, budget);
    var done, moments := sys.Run(life.script);
    d, ms := sys.log.cache.disk, moments;
  }

  // At every moment of a life, and after every cut recovery before it, the files are those of the transactions
  // committed by then; `commits` are those of the earlier lives.
  ghost predicate Outlived(l: Layout, first: Image, commits: seq<map<Word, Block>>, d: Image, life: Life,
                           ms: seq<Moment>)
  {
    && (forall k :: 0 <= k < |ms| ==> Survives(l, first, commits + ms[k].commits, ms[k].disk))
    && Recoverable(l, d)
    && (forall j :: 0 <= j <= |life.cuts| ==> Survives(l, first, commits, Cut(l, d, life.cuts[..j])))
  }

  lemma LifeOutlived(l: Layout, first: Image, commits: seq<map<Word, Block>>, d: Image, life: Life, ms: seq<Moment>)
    requires Survives(l, first, commits, d)
    requires forall k :: 0 <= k < |ms| ==> Survives(l, Recovered(l, d), ms[k].commits, ms[k].disk)
    ensures Outlived(l, first, commits, d, life, ms)
  {
    hide Recovered, Overlay, Recoverable, Survives;
    SurvivesRecoverable(l, first, commits, d);
    forall k | 0 <= k < |ms| ensures Survives(l, first, commits + ms[k].commits, ms[k].disk) {
      NextLife(l, first, commits, d, ms[k].commits, ms[k].disk);
    }
    forall j | 0 <= j <= |life.cuts| ensures Survives(l, first, commits, Cut(l, d, life.cuts[..j])) {
      CutSurvives(l, first, commits, d, life.cuts[..j]);
    }
  }

  lemma SurvivesRecoverable(l: Layout, first: Image, commits: seq<map<Word, Block>>, d: Image)
    requires Survives(l, first, commits, d)
    ensures Recoverable(l, d)
  {
  }

  // The lives so far, each starting where the one before it stopped.
  ghost predicate Told(l: Layout, budget: nat, disk: Image, plan: seq<Life>, lives: seq<seq<Moment>>)
    requires Recoverable(l, disk)
  {
    && |lives| <= |plan|
    && forall i :: 0 <= i < |lives| ==>
      && Lived(l, budget, DiskAfter(disk, lives, i), plan[i], lives[i])
      && Outlived(l, Recovered(l, disk), CommitsAfter(lives, i), DiskAfter(disk, lives, i), plan[i], lives[i])
  }

  lemma ToldMore(l: Layout, budget: nat, disk: Image, plan: seq<Life>, lives: seq<seq<Moment>>, ms: seq<Moment>)
    requires Recoverable(l, disk) && Told(l, budget, disk, plan, lives)
    requires var n := |lives|;
      && n < |plan| && Lived(l, budget, DiskAfter(disk, lives, n), plan[n], ms)
      && Outlived(l, Recovered(l, disk), CommitsAfter(lives, n), DiskAfter(disk, lives, n), plan[n], ms)
    ensures Told(l, budget, disk, plan, lives + [ms])
  {
    hide Recovered, Recoverable, Lived, Outlived, DiskAfter, CommitsAfter;
    var lives' := lives + [ms];
    forall i | 0 <= i <= |lives|
      ensures Lived(l, budget, DiskAfter(disk, lives', i), plan[i], lives'[i])
      ensures Outlived(l, Recovered(l, disk), CommitsAfter(lives', i), DiskAfter(disk, lives', i), plan[i], lives'[i])
    {
      LivesMore(disk, lives, ms, i);
    }
  }

  lemma NoneTold(l: Layout, budget: nat, disk: Image, plan: seq<Life>)
    requires Recoverable(l, disk)
    ensures Told(l, budget, disk, plan, []) && DiskAfter(disk, [], 0) == disk && CommitsAfter([], 0) == []
  {
  }

  /**
   The machine boots, runs and crashes, again and again, also inside its
   recoveries.  At every moment of every life, and whatever a cut recovery
   left, the files are those of all transactions committed until then, in
   this life and the earlier ones, in order.
   */
  method Lives(disk: Image, layout: Layout, budget: nat, plan: seq<Life>)
    returns (d: Image, ghost commits: seq<map<Word, Block>>, ghost lives: seq<seq<Moment>>)
    requires layout.dev != 0 && layout.size == LogSpace.NLOG && Recoverable(layout, disk) && budget < MAXOPBLOCKS
    ensures |lives| == |plan| && Told(layout, budget, disk, plan, lives)
    ensures d == DiskAfter(disk, lives, |lives|) && commits == CommitsAfter(lives, |lives|)
    ensures Survives(layout, Recovered(layout, disk), commits, d)
  {
    hide Recovered, Overlay, Recoverable, Lived, Survives, Outlived, Cut, Told, DiskAfter;
    d, commits, lives := disk, [], [];
    Nothing(layout, disk);
    NoneTold(layout, budget, disk, plan);
    for n := 0 to |plan|
      invariant |lives| == n && Told(layout, budget, disk, plan, lives)
      invariant d == DiskAfter(disk, lives, n) && commits == CommitsAfter(lives, n)
      invariant Survives(layout, Recovered(layout, disk), commits, d)
    {
      SurvivesRecoverable(layout, Recovered(layout, disk), commits, d);
      ghost var found := d;
      ghost var ms: seq<Moment>;
      d, ms := Live(d, layout, budget, plan[n]);
      LifeOutlived(layout, Recovered(layout, disk), commits, found, plan[n], ms);
      ToldMore(layout, budget, disk, plan, lives, ms);
      LivesNow(disk, lives, ms);
      NextLife(layout, Recovered(layout, disk), commits, found, Last(ms).commits, d);
      lives, commits := lives + [ms], commits + Last(ms).commits;
    }
  }

  lemma Nothing(l: Layout, d: Image)
    requires Recoverable(l, d)
    ensures Survives(l, Recovered(l, d), [], d)
  {
    RecoveryIdempotent(l, d);
  }
}
