/**
 The three-level Sv39 page table of kernel/vm.c, as it lies in memory: table
 pages of 512 entries, entries as the 64-bit numbers the hardware reads.  What
 walk, mappages, uvmunmap and freewalk do to it is proved to be what they do
 to a flat map from virtual page to entry.
 */
module PageTable {
  import opened Common
  import opened Paging

  const ENTRIES: nat := 512
  const MAXVPN: nat := 0x400_0000      // MAXVA / PGSIZE
  const ROOTS: nat := 256              // entries of the root that lead to an address below MAXVA

  const PTE_V: nat := 1
  const PTE_R: nat := 2
  const PTE_W: nat := 4
  const PTE_X: nat := 8

  // Entries: bits 0..9 are flags, the page number is above them.
  predicate IsValid(e: nat) {
    e % 2 == 1
  }

  function Flags(e: nat): nat {
    e % 1024
  }

  function Pa2Pte(pa: nat): nat {
    pa / 4096 * 1024
  }

  function Pte2Pa(e: nat): nat {
    e / 1024 * 4096
  }

  // (pte & (PTE_R|PTE_W|PTE_X)) != 0
  predicate IsLeaf(e: nat) {
    e / 2 % 8 != 0
  }

  /** A page address goes through an entry with any flags and comes back. */
  lemma PteRoundTrip(pa: nat, flags: nat)
    requires pa % PGSIZE == 0 && flags < 1024
    ensures Pte2Pa(Pa2Pte(pa) + flags) == pa && Flags(Pa2Pte(pa) + flags) == flags
  {
  }

  // PX(level, va), and the same from the virtual page number.
  function Px(level: nat, va: nat): nat
    requires level <= 2
  {
    if level == 0 then va / 4096 % 512 else if level == 1 then va / 0x20_0000 % 512 else va / 0x4000_0000 % 512
  }

  function Index(level: nat, v: nat): (i: nat)
    requires level <= 2
    ensures i < ENTRIES
  {
    if level == 0 then v % 512 else if level == 1 then v / 512 % 512 else v / 0x4_0000 % 512
  }

  lemma PxIndex(level: nat, va: nat)
    requires level <= 2
    ensures Px(level, va) == Index(level, va / PGSIZE)
  {
    if level == 1 {
      assert va / 0x20_0000 == va / 4096 / 512;
    } else if level == 2 {
      assert va / 0x4000_0000 == va / 4096 / 0x4_0000;
    }
  }

  /** Below MAXVA the three indices tell virtual pages apart. */
  lemma IndicesInjective(va: nat, va': nat)
    requires va < MAXVA && va' < MAXVA && forall level :: 0 <= level <= 2 ==> Px(level, va) == Px(level, va')
    ensures va / PGSIZE == va' / PGSIZE
  {
    forall level | 0 <= level <= 2 ensures Index(level, va / PGSIZE) == Index(level, va' / PGSIZE) {
      PxIndex(level, va);
      PxIndex(level, va');
      assert Px(level, va) == Px(level, va');
    }
    FromIndices(va / PGSIZE);
    FromIndices(va' / PGSIZE);
  }

  lemma FromIndices(v: nat)
    requires v < MAXVPN
    ensures v == Index(2, v) * 0x4_0000 + Index(1, v) * 512 + Index(0, v)
  {
    assert v / 0x4_0000 == v / 512 / 512;
  }

  lemma ToIndices(i2: nat, i1: nat, i0: nat)
    requires i2 < ROOTS && i1 < ENTRIES && i0 < ENTRIES
    ensures Vpn(i2, i1, i0) < MAXVPN && Index(2, Vpn(i2, i1, i0)) == i2
    ensures Index(1, Vpn(i2, i1, i0)) == i1 && Vpn(i2, i1, i0) % 512 == i0
  {
    var v := Vpn(i2, i1, i0);
    assert v / 512 == i2 * 512 + i1;
    assert v / 0x4_0000 == v / 512 / 512;
  }

  function Vpn(i2: nat, i1: nat, i0: nat): nat {
    i2 * 0x4_0000 + i1 * 512 + i0
  }

  type Memory = map<nat, seq<nat>>

  ghost predicate Tables(m: Memory) {
    forall p :: p in m ==> |m[p]| == ENTRIES
  }

  function Follow(m: Memory, p: nat, i: nat): Option<nat>
    requires Tables(m) && i < ENTRIES
  {
    if p in m && IsValid(m[p][i]) then Some(m[p][i] / 1024) else None
  }

  // The table pages on the way to virtual page v, and its entry.
  function MidPage(m: Memory, root: nat, i2: nat): Option<nat>
    requires Tables(m) && i2 < ENTRIES
  {
    Follow(m, root, i2)
  }

  function LowPage(m: Memory, root: nat, i2: nat, i1: nat): Option<nat>
    requires Tables(m) && i2 < ENTRIES && i1 < ENTRIES
  {
    match MidPage(m, root, i2)
    case None => None
    case Some(p) => Follow(m, p, i1)
  }

  /** The flat map: the entry of virtual page v, if it is valid. */
  function Lookup(m: Memory, root: nat, v: nat): Option<nat>
    requires Tables(m)
  {
    match LowPage(m, root, Index(2, v), Index(1, v))
    case None => None
    case Some(p) => if p in m && IsValid(m[p][v % 512]) then Some(m[p][v % 512]) else None
  }

  // The tree under root: `owner` names each of its table pages, so no two places share one.
  ghost predicate Tree(m: Memory, root: nat, owner: map<nat, Node>) {
    && Tables(m) && owner.Keys <= m.Keys
    && root in owner && owner[root] == Root
    && (forall p :: p in owner && (owner[p] == Root || owner[p] == Frame) ==> p == root)
    && (forall i2 :: 0 <= i2 < ENTRIES && MidPage(m, root, i2).Some? ==>
      MidPage(m, root, i2).value in owner && owner[MidPage(m, root, i2).value] == Mid(i2))
    && (forall i2, i1 :: 0 <= i2 < ENTRIES && 0 <= i1 < ENTRIES && LowPage(m, root, i2, i1).Some? ==>
      LowPage(m, root, i2, i1).value in owner && owner[LowPage(m, root, i2, i1).value] == Low(i2 * 512 + i1))
    && (forall p :: p in owner && owner[p].Mid? ==> owner[p].i2 < ENTRIES && MidPage(m, root, owner[p].i2) == Some(p))
    && (forall p :: p in owner && owner[p].Low? ==>
      owner[p].i21 / 512 < ENTRIES && LowPage(m, root, owner[p].i21 / 512, owner[p].i21 % 512) == Some(p))
  }

  // Entries above the bottom tables are pointers, and no table hangs where no address below MAXVA leads.
  ghost predicate Inner(m: Memory, root: nat, owner: map<nat, Node>)
    requires Tables(m)
  {
    && (forall p, i :: p in owner && p in m && !owner[p].Low? && 0 <= i < ENTRIES && IsValid(m[p][i]) ==>
       !IsLeaf(m[p][i]))
    && (forall i :: ROOTS <= i < ENTRIES && root in m ==> !IsValid(m[root][i]))
  }

  function Empty(): (t: seq<nat>)
    ensures |t| == ENTRIES
  {
    seq(ENTRIES, _ => 0)
  }

  function PutEntry(m: Memory, p: nat, i: nat, e: nat): (m': Memory)
    requires Tables(m) && p in m && i < ENTRIES
    ensures Tables(m')
  {
    var table: seq<nat> := m[p][i := e];
    m[p := table]
  }

  // A page q becomes the empty table that entry i of table p points to.
  function Hang(m: Memory, p: nat, i: nat, q: nat): (m': Memory)
    requires Tables(m) && p in m && i < ENTRIES && p != q
    ensures Tables(m')
  {
    PutEntry(m[q := Empty()], p, i, q * 1024 + PTE_V)
  }

  lemma HangFollow(m: Memory, p: nat, i: nat, q: nat, p': nat, i': nat)
    requires Tables(m) && p in m && i < ENTRIES && i' < ENTRIES && p != q
    ensures Follow(Hang(m, p, i, q), p', i') ==
      if p' == q then None else if p' == p && i' == i then Some(q) else Follow(m, p', i')
  {
    hide IsValid, Empty;
    TableEntry(q);
    EmptyEntry(i');
  }

  lemma TableEntry(q: nat)
    ensures IsValid(q * 1024 + PTE_V) && (q * 1024 + PTE_V) / 1024 == q && !IsLeaf(q * 1024 + PTE_V)
  {
    Odd(q * 512, q * 1024 + PTE_V);
  }

  lemma HangInner(m: Memory, root: nat, owner: map<nat, Node>, p: nat, i: nat, q: nat, node: Node)
    requires Tables(m) && Inner(m, root, owner) && p in m && i < ENTRIES && p != q && q !in owner && root in owner
    requires p in owner && !owner[p].Low? && (p == root ==> i < ROOTS)
    ensures Inner(Hang(m, p, i, q), root, owner[q := node])
  {
    hide IsValid, IsLeaf, Empty;
    TableEntry(q);
    forall j | 0 <= j < ENTRIES ensures !IsValid(Empty()[j]) {
      EmptyEntry(j);
    }
  }

  lemma Odd(h: nat, e: nat)
    requires e == 2 * h + 1
    ensures IsValid(e)
  {
  }

  lemma EmptyEntry(i: nat)
    requires i < ENTRIES
    ensures !IsValid(Empty()[i])
  {
  }

  lemma HangMidTree(m: Memory, root: nat, owner: map<nat, Node>, i2: nat, q: nat)
    requires Tree(m, root, owner) && i2 < ENTRIES && MidPage(m, root, i2) == None && q !in owner
    ensures Tree(Hang(m, root, i2, q), root, owner[q := Mid(i2)])
    ensures forall v :: Lookup(Hang(m, root, i2, q), root, v) == Lookup(m, root, v)
  {
    var m', owner' := Hang(m, root, i2, q), owner[q := Mid(i2)];
    forall j2 | 0 <= j2 < ENTRIES ensures MidPage(m', root, j2) == if j2 == i2 then Some(q) else MidPage(m, root, j2) {
      HangFollow(m, root, i2, q, root, j2);
    }
    forall j2, j1 | 0 <= j2 < ENTRIES && 0 <= j1 < ENTRIES ensures LowPage(m', root, j2, j1) == LowPage(m, root, j2, j1)
    {
      if j2 == i2 {
        HangFollow(m, root, i2, q, q, j1);
      } else if MidPage(m, root, j2).Some? {
        HangFollow(m, root, i2, q, MidPage(m, root, j2).value, j1);
      }
    }
    forall v ensures Lookup(m', root, v) == Lookup(m, root, v) {
      var low := LowPage(m, root, Index(2, v), Index(1, v));
      assert low.Some? ==> low.value in owner && low.value != q && low.value != root;
    }
  }

  lemma HangLowPages(m: Memory, root: nat, owner: map<nat, Node>, i2: nat, i1: nat, p: nat, q: nat)
    requires Tree(m, root, owner) && i2 < ENTRIES && i1 < ENTRIES && q !in owner
    requires MidPage(m, root, i2) == Some(p) && LowPage(m, root, i2, i1) == None
    ensures p in owner && p in m && owner[p] == Mid(i2) && p != q
    ensures forall j2 :: 0 <= j2 < ENTRIES ==> MidPage(Hang(m, p, i1, q), root, j2) == MidPage(m, root, j2)
    ensures forall j2, j1 :: 0 <= j2 < ENTRIES && 0 <= j1 < ENTRIES ==>
      LowPage(Hang(m, p, i1, q), root, j2, j1) == if j2 == i2 && j1 == i1 then Some(q) else LowPage(m, root, j2, j1)
  {
    hide Hang;
    assert p in owner && owner[p] == Mid(i2);
    var m' := Hang(m, p, i1, q);
    forall j2 | 0 <= j2 < ENTRIES ensures MidPage(m', root, j2) == MidPage(m, root, j2) {
      HangFollow(m, p, i1, q, root, j2);
    }
    forall j2, j1 | 0 <= j2 < ENTRIES && 0 <= j1 < ENTRIES
      ensures LowPage(m', root, j2, j1) == if j2 == i2 && j1 == i1 then Some(q) else LowPage(m, root, j2, j1)
    {
      if MidPage(m, root, j2).Some? {
        HangFollow(m, p, i1, q, MidPage(m, root, j2).value, j1);
      }
    }
  }

  lemma HangLowTree(m: Memory, root: nat, owner: map<nat, Node>, i2: nat, i1: nat, p: nat, q: nat)
    requires Tree(m, root, owner) && i2 < ENTRIES && i1 < ENTRIES && q !in owner
    requires MidPage(m, root, i2) == Some(p) && LowPage(m, root, i2, i1) == None
    ensures p in m && Tree(Hang(m, p, i1, q), root, owner[q := Low(i2 * 512 + i1)])
    ensures forall v :: Lookup(Hang(m, p, i1, q), root, v) == Lookup(m, root, v)
  {
    HangLowPages(m, root, owner, i2, i1, p, q);
    hide MidPage, LowPage;
    var m' := Hang(m, p, i1, q);
    forall v ensures Lookup(m', root, v) == Lookup(m, root, v) {
      var low := LowPage(m, root, Index(2, v), Index(1, v));
      assert low.Some? ==> low.value in owner && low.value != q && low.value != p;
    }
  }

  // Writing an entry of a bottom table leaves the tables above it as they are.
  lemma PutPages(m: Memory, root: nat, owner: map<nat, Node>, p: nat, i: nat, e: nat)
    requires Tree(m, root, owner) && p in owner && owner[p].Low? && i < ENTRIES
    ensures forall j2 :: 0 <= j2 < ENTRIES ==> MidPage(PutEntry(m, p, i, e), root, j2) == MidPage(m, root, j2)
    ensures forall j2, j1 :: 0 <= j2 < ENTRIES && 0 <= j1 < ENTRIES ==>
      LowPage(PutEntry(m, p, i, e), root, j2, j1) == LowPage(m, root, j2, j1)
  {
    var m' := PutEntry(m, p, i, e);
    forall j2 | 0 <= j2 < ENTRIES ensures MidPage(m', root, j2) == MidPage(m, root, j2) {
    }
    forall j2, j1 | 0 <= j2 < ENTRIES && 0 <= j1 < ENTRIES ensures LowPage(m', root, j2, j1) == LowPage(m, root, j2, j1)
    {
      assert MidPage(m, root, j2).Some? ==> MidPage(m, root, j2).value != p;
    }
  }

  lemma PutTree(m: Memory, root: nat, owner: map<nat, Node>, p: nat, i: nat, e: nat)
    requires Tree(m, root, owner) && p in owner && owner[p].Low? && i < ENTRIES
    ensures Tree(PutEntry(m, p, i, e), root, owner)
  {
    PutPages(m, root, owner, p, i, e);
  }

  lemma PutInner(m: Memory, root: nat, owner: map<nat, Node>, p: nat, i: nat, e: nat)
    requires Tree(m, root, owner) && Inner(m, root, owner) && p in owner && owner[p].Low? && i < ENTRIES
    ensures Inner(PutEntry(m, p, i, e), root, owner)
  {
    hide IsValid, IsLeaf;
  }

  lemma SameLow(m: Memory, root: nat, owner: map<nat, Node>, u: nat, v: nat, p: nat)
    requires Tree(m, root, owner) && u < MAXVPN && v < MAXVPN && u % 512 == v % 512
    requires LowPage(m, root, Index(2, v), Index(1, v)) == Some(p)
      && LowPage(m, root, Index(2, u), Index(1, u)) == Some(p)
    ensures u == v
  {
    assert owner[p] == Low(Index(2, v) * 512 + Index(1, v)) && owner[p] == Low(Index(2, u) * 512 + Index(1, u));
    FromIndices(u);
    FromIndices(v);
  }

  /** An entry of a bottom table is the entry of one virtual page and no other. */
  lemma PutLookup(m: Memory, root: nat, owner: map<nat, Node>, v: nat, p: nat, e: nat, u: nat)
    requires Tree(m, root, owner) && v < MAXVPN && u < MAXVPN && LowPage(m, root, Index(2, v), Index(1, v)) == Some(p)
    ensures p in owner && Lookup(PutEntry(m, p, v % 512, e), root, u) ==
      if u != v then Lookup(m, root, u) else if IsValid(e) then Some(e) else None
  {
    assert p in owner && owner[p] == Low(Index(2, v) * 512 + Index(1, v));
    PutPages(m, root, owner, p, v % 512, e);
    var low := LowPage(m, root, Index(2, u), Index(1, u));
    assert low.Some? ==> low.value in owner;
    if low == Some(p) && u % 512 == v % 512 {
      SameLow(m, root, owner, u, v, p);
    }
  }

  // ---- the operations

  datatype Outcome = Done | NoMemory | Remap | NotMapped | NotALeaf | BadSize   // 0, -1, and the panics

  // The entry mappages writes for the k-th page from pa on; the flags always include PTE_V.
  function NewEntry(pa: nat, perm: nat, k: nat): (e: nat)
    requires perm < 1024
    ensures IsValid(e) && e / 1024 == pa / PGSIZE + k
  {
    Pa2Pte(pa + k * PGSIZE) + (if perm % 2 == 0 then perm + PTE_V else perm)
  }

  // A mapping with R, W or X is a leaf.
  lemma NewLeaf(pa: nat, perm: nat, k: nat)
    requires perm < 1024 && perm / 2 % 8 != 0
    ensures IsLeaf(NewEntry(pa, perm, k))
  {
    var flags := if perm % 2 == 0 then perm + PTE_V else perm;
    assert flags / 2 == perm / 2;
    var page := (pa + k * PGSIZE) / 4096;
    assert NewEntry(pa, perm, k) / 2 == page * 512 + flags / 2;
    Octal(page * 64, flags / 2);
  }

  lemma Octal(a: nat, b: nat)
    ensures (a * 8 + b) % 8 == b % 8
  {
  }

  /** The flat map the tree stands for. */
  ghost function Flat(m: Memory, root: nat): imap<nat, nat>
    requires Tables(m)
  {
    imap v: nat | v < MAXVPN && Lookup(m, root, v).Some? :: Lookup(m, root, v).value
  }

  lemma SameFlat(m: Memory, m': Memory, root: nat)
    requires Tables(m) && Tables(m') && forall u :: Lookup(m', root, u) == Lookup(m, root, u)
    ensures Flat(m', root) == Flat(m, root)
  {
  }

  // The entry of page v is in the bottom table above it.
  lemma FlatAt(m: Memory, root: nat, owner: map<nat, Node>, v: nat)
    requires Tables(m) && Tree(m, root, owner) && v < MAXVPN
    ensures var slot := LowPage(m, root, Index(2, v), Index(1, v));
      if slot.None? then v !in Flat(m, root)
      else
        && slot.value in m && (v in Flat(m, root) <==> IsValid(m[slot.value][v % 512]))
        && (v in Flat(m, root) ==> Flat(m, root)[v] == m[slot.value][v % 512])
  {
    hide Index, IsValid, LowPage, MidPage;
  }

  // The entries of n pages from first on, mapped to consecutive pages from pa on.
  ghost function NewEntries(first: nat, pa: nat, perm: nat, n: nat): imap<nat, nat>
    requires perm < 1024
  {
    if n == 0 then imap[] else NewEntries(first, pa, perm, n - 1)[first + n - 1 := NewEntry(pa, perm, n - 1)]
  }

  lemma NoEntries(first: nat, pa: nat, perm: nat)
    requires perm < 1024
    ensures forall f: imap<nat, nat> :: f + NewEntries(first, pa, perm, 0) == f
  {
  }

  lemma {:induction false} EntriesAt(first: nat, pa: nat, perm: nat, n: nat)
    requires perm < 1024
    ensures forall v :: v in NewEntries(first, pa, perm, n) <==> Within(v, first, n)
    ensures forall v: nat :: Within(v, first, n) ==> NewEntries(first, pa, perm, n)[v] == NewEntry(pa, perm, v - first)
  {
    if n > 0 {
      EntriesAt(first, pa, perm, n - 1);
    }
  }

  lemma MoreEntries(f: imap<nat, nat>, first: nat, pa: nat, perm: nat, n: nat)
    requires perm < 1024
    ensures (f + NewEntries(first, pa, perm, n))[first + n := NewEntry(pa, perm, n)] ==
      f + NewEntries(first, pa, perm, n + 1)
    ensures first + n in f + NewEntries(first, pa, perm, n) <==> first + n in f
  {
    EntriesAt(first, pa, perm, n);
  }

  // f is f0 with n new entries from page first on, where f0 had none.
  ghost predicate Mapped(f0: imap<nat, nat>, f: imap<nat, nat>, first: nat, pa: nat, perm: nat, n: nat)
    requires perm < 1024
  {
    f == f0 + NewEntries(first, pa, perm, n) && forall v :: Within(v, first, n) ==> v !in f0
  }

  lemma MappedNone(f: imap<nat, nat>, first: nat, pa: nat, perm: nat)
    requires perm < 1024
    ensures Mapped(f, f, first, pa, perm, 0)
  {
    NoEntries(first, pa, perm);
  }

  lemma MappedMore(f0: imap<nat, nat>, f: imap<nat, nat>, first: nat, pa: nat, perm: nat, n: nat)
    requires perm < 1024 && Mapped(f0, f, first, pa, perm, n)
    ensures first + n in f <==> first + n in f0
    ensures first + n !in f ==> Mapped(f0, f[first + n := NewEntry(pa, perm, n)], first, pa, perm, n + 1)
  {
    hide NewEntries, NewEntry;
    MoreEntries(f0, first, pa, perm, n);
  }

  lemma PageRange(va: nat, size: nat)
    requires 0 < size && va + size <= MAXVA
    ensures va / PGSIZE <= (va + size - 1) / PGSIZE < MAXVPN
  {
  }

  ghost function Span(first: nat, n: nat): (s: set<nat>)
    ensures forall v :: v in s <==> Within(v, first, n)
  {
    if n == 0 then {} else Span(first, n - 1) + {first + n - 1}
  }

  // v is one of the n pages from first on.
  ghost predicate Within(v: nat, first: nat, n: nat) {
    first <= v < first + n
  }

  class Pager {
    const root: nat
    var mem: Memory
    var freelist: seq<nat>
    ghost var owner: map<nat, Node>

    ghost predicate Valid()
      reads this
    {
      && Tables(mem) && Tree(mem, root, owner) && Inner(mem, root, owner)
      && (forall k :: 0 <= k < |freelist| ==> freelist[k] !in owner)
      && (forall j, k :: 0 <= j < k < |freelist| ==> freelist[j] != freelist[k])
    }

    /** The pages of the tree and the free ones. */
    ghost function Pages(): set<nat>
      reads this
    {
      owner.Keys + set q | q in freelist
    }

    // No page is lost, and memory that is neither in this tree nor was on the free list is as before.
    twostate predicate Framed()
      reads this
    {
      && Pages() == old(Pages()) && old(owner.Keys) <= owner.Keys
      && (forall p :: p in old(mem) && p !in owner ==> p in mem && mem[p] == old(mem)[p])
    }

    /** uvmcreate on a page p. */
    constructor (p: nat, mem: Memory, freelist: seq<nat>)
      requires Tables(mem) && p !in freelist && forall j, k :: 0 <= j < k < |freelist| ==> freelist[j] != freelist[k]
      ensures Valid() && root == p && owner == map[p := Root] && this.freelist == freelist
      ensures forall v :: Lookup(this.mem, root, v) == None
    {
      root := p;
      this.mem := mem[p := Empty()];
      this.freelist := freelist;
      owner := map[p := Root];
    }

    /**
     walk: the bottom table that has the entry of page v, at index v % 512.
     With alloc, missing tables are made of free pages; no page's entry
     changes, and where the tables are there no page is needed.
     */
    method Walk(v: nat, alloc: bool) returns (slot: Option<nat>)
      requires Valid() && v < MAXVPN
      modifies this`mem, this`freelist, this`owner
      ensures Valid() && Framed()
      ensures forall u :: Lookup(mem, root, u) == old(Lookup(mem, root, u))
      ensures slot == LowPage(mem, root, Index(2, v), Index(1, v))
      ensures alloc && slot.None? ==> freelist == []
      ensures !alloc || old(LowPage(mem, root, Index(2, v), Index(1, v)).Some?) ==> unchanged(this)
    {
      hide Tree, Lookup, Inner;
      var p := root;
      var level := 2;
      while level > 0
        invariant 0 <= level <= 2 && Valid() && Framed()
        invariant forall u :: Lookup(mem, root, u) == old(Lookup(mem, root, u))
        invariant level == 2 ==> p == root && unchanged(this)
        invariant level == 1 ==> MidPage(mem, root, Index(2, v)) == Some(p)
        invariant level == 0 ==> LowPage(mem, root, Index(2, v), Index(1, v)) == Some(p)
        invariant !alloc || old(LowPage(mem, root, Index(2, v), Index(1, v)).Some?) ==> unchanged(this)
      {
        TablePage(mem, root, owner, v, level, p);
        var i := Index(level, v);
        if IsValid(mem[p][i]) {
          p := mem[p][i] / 1024;
        } else {
          if !alloc || freelist == [] {
            return None;
          }
          p := Grow(v, level, p);
        }
        level := level - 1;
      }
      return Some(p);
    }

    // The missing table below table p of level `level`, out of the first free page.
    method Grow(v: nat, level: nat, p: nat) returns (q: nat)
      requires Valid() && v < MAXVPN && 1 <= level <= 2 && freelist != []
      requires level == 2 ==> p == root && MidPage(mem, root, Index(2, v)) == None
      requires level == 1 ==>
        MidPage(mem, root, Index(2, v)) == Some(p) && LowPage(mem, root, Index(2, v), Index(1, v)) == None
      modifies this`mem, this`freelist, this`owner
      ensures Valid() && Framed()
      ensures forall u :: Lookup(mem, root, u) == old(Lookup(mem, root, u))
      ensures level == 2 ==> MidPage(mem, root, Index(2, v)) == Some(q)
      ensures level == 1 ==> LowPage(mem, root, Index(2, v), Index(1, v)) == Some(q)
    {
      hide Lookup, Tree, Inner;
      var i := Index(level, v);
      q := freelist[0];
      TablePage(mem, root, owner, v, level, p);
      HangInner(mem, root, owner, p, i, q, if level == 2 then Mid(i) else Low(Index(2, v) * 512 + i));
      if level == 2 {
        HangMidTree(mem, root, owner, i, q);
        HangFollow(mem, root, i, q, root, i);
        owner := owner[q := Mid(i)];
      } else {
        HangLowTree(mem, root, owner, Index(2, v), i, p, q);
        HangFollow(mem, p, i, q, root, Index(2, v));
        HangFollow(mem, p, i, q, p, i);
        owner := owner[q := Low(Index(2, v) * 512 + i)];
      }
      freelist := freelist[1..];
      mem := Hang(mem, p, i, q);
    }

    // Write the entry of page v in its bottom table p.
    method Put(v: nat, p: nat, e: nat)
      requires Valid() && v < MAXVPN && LowPage(mem, root, Index(2, v), Index(1, v)) == Some(p)
      modifies this`mem
      ensures Valid() && Framed()
      ensures LowPage(mem, root, Index(2, v), Index(1, v)) == Some(p)
      ensures Flat(mem, root) == if IsValid(e) then old(Flat(mem, root))[v := e] else old(Flat(mem, root)) - {v}
    {
      hide Lookup, Inner;
      PutLookup(mem, root, owner, v, p, e, v);
      PutInner(mem, root, owner, p, v % 512, e);
      PutPages(mem, root, owner, p, v % 512, e);
      PutTree(mem, root, owner, p, v % 512, e);
      forall u | 0 <= u < MAXVPN && u != v ensures Lookup(PutEntry(mem, p, v % 512, e), root, u) == Lookup(mem, root, u)
      {
        PutLookup(mem, root, owner, v, p, e, u);
      }
      mem := PutEntry(mem, p, v % 512, e);
    }

    // walk, and what the flat map has at the place it finds.
    method Find(v: nat, alloc: bool) returns (slot: Option<nat>, e: nat)
      requires Valid() && v < MAXVPN
      modifies this`mem, this`freelist, this`owner
      ensures Valid() && Framed() && Flat(mem, root) == old(Flat(mem, root))
      ensures slot == LowPage(mem, root, Index(2, v), Index(1, v))
      ensures alloc && slot.None? ==> freelist == []
      ensures !alloc || old(LowPage(mem, root, Index(2, v), Index(1, v)).Some?) ==> unchanged(this)
      ensures slot.None? ==> v !in Flat(mem, root)
      ensures slot.Some? ==> (v in Flat(mem, root) <==> IsValid(e)) && (IsValid(e) ==> Flat(mem, root)[v] == e)
    {
      hide Tree, Inner, Lookup, Flat, LowPage, Framed, Index, IsValid;
      slot := Walk(v, alloc);
      SameFlat(old(mem), mem, root);
      FlatAt(mem, root, owner, v);
      e := 0;
      if slot.Some? {
        e := mem[slot.value][v % 512];
      }
    }

    // One page of mappages.
    method SetPage(v: nat, e: nat) returns (r: Outcome)
      requires Valid() && v < MAXVPN && IsValid(e)
      modifies this`mem, this`freelist, this`owner
      ensures Valid() && Framed() && (r.Done? || r.Remap? || r.NoMemory?)
      ensures Flat(mem, root) == if r.Done? then old(Flat(mem, root))[v := e] else old(Flat(mem, root))
      ensures r.Remap? <==> v in old(Flat(mem, root))
      ensures r.NoMemory? ==> freelist == []
      ensures old(LowPage(mem, root, Index(2, v), Index(1, v)).Some?) ==> !r.NoMemory? && freelist == old(freelist)
    {
      hide Tree, Inner, Flat, Lookup;
      var slot, e0 := Find(v, true);
      if slot.None? {
        return NoMemory;
      }
      if IsValid(e0) {
        return Remap;
      }
      Put(v, slot.value, e);
      return Done;
    }

    // One page of uvmunmap.
    method ClearPage(v: nat) returns (r: Outcome)
      requires Valid() && v < MAXVPN
      modifies this`mem, this`freelist, this`owner
      ensures Valid() && Framed() && owner == old(owner) && freelist == old(freelist)
      ensures r.Done? || r.NotMapped? || r.NotALeaf?
      ensures Flat(mem, root) == if r.Done? then old(Flat(mem, root)) - {v} else old(Flat(mem, root))
      ensures r.NotMapped? <==> v !in old(Flat(mem, root))
      ensures r.NotALeaf? <==> v in old(Flat(mem, root)) && Flags(old(Flat(mem, root))[v]) == PTE_V
      ensures r.Done? ==> LowPage(mem, root, Index(2, v), Index(1, v)).Some?
    {
      hide Tree, Inner, Flat, Lookup;
      var slot, e0 := Find(v, false);
      if slot.None? || !IsValid(e0) {
        return NotMapped;
      }
      if Flags(e0) == PTE_V {
        return NotALeaf;
      }
      Put(v, slot.value, 0);
      return Done;
    }

    /**
     mappages of the pages that [va, va + size) touches, to consecutive pages
     from pa on.  The first `done` of them have their new entries and no other
     page's entry has changed; it stops short for want of a table page, or at
     a page that is mapped already.
     */
    method MapPages(va: nat, size: nat, pa: nat, perm: nat) returns (r: Outcome, done: nat)
      requires Valid() && va + size <= MAXVA && perm < 1024
      modifies this`mem, this`freelist, this`owner
      ensures Valid() && Framed()
      ensures size == 0 <==> r.BadSize?
      ensures r.Done? ==> done == (va + size - 1) / PGSIZE - va / PGSIZE + 1
      ensures r.Remap? ==> va / PGSIZE + done in old(Flat(mem, root))
      ensures r.NoMemory? ==> freelist == []
      ensures Flat(mem, root) == old(Flat(mem, root)) + NewEntries(va / PGSIZE, pa, perm, done)
      ensures forall v :: Within(v, va / PGSIZE, done) ==> v !in old(Flat(mem, root))
      ensures perm / 2 % 8 != 0 && old(Leafy(Flat(mem, root))) ==> Leafy(Flat(mem, root))
    {
      hide Tree, Inner, Flat, Lookup, NewEntries, LowPage, Index;
      done := 0;
      if size == 0 {
        NoEntries(va / PGSIZE, pa, perm);
        return BadSize, 0;
      }
      PageRange(va, size);
      r, done := MapRange(va / PGSIZE, (va + size - 1) / PGSIZE, pa, perm);
      if perm / 2 % 8 != 0 && old(Leafy(Flat(mem, root))) {
        LeafyMore(old(Flat(mem, root)), va / PGSIZE, pa, perm, done);
      }
    }

    // The loop of mappages.
    method MapRange(first: nat, last: nat, pa: nat, perm: nat) returns (r: Outcome, done: nat)
      requires Valid() && first <= last < MAXVPN && perm < 1024
      modifies this`mem, this`freelist, this`owner
      ensures Valid() && Framed() && (r.Done? || r.Remap? || r.NoMemory?)
      ensures r.Done? ==> done == last - first + 1
      ensures r.Remap? ==> first + done in old(Flat(mem, root))
      ensures r.NoMemory? ==> freelist == []
      ensures Mapped(old(Flat(mem, root)), Flat(mem, root), first, pa, perm, done)
    {
      hide Tree, Inner, Flat, Lookup, NewEntry, NewEntries, LowPage, Index, Mapped;
      done := 0;
      MappedNone(Flat(mem, root), first, pa, perm);
      while true
        invariant first + done <= last && Valid() && Framed()
        invariant Mapped(old(Flat(mem, root)), Flat(mem, root), first, pa, perm, done)
        decreases last - first - done
      {
        var a := first + done;
        MappedMore(old(Flat(mem, root)), Flat(mem, root), first, pa, perm, done);
        r := SetPage(a, NewEntry(pa, perm, done));
        if !r.Done? {
          return;
        }
        done := done + 1;
        if a == last {
          return;
        }
      }
    }

    /** uvmunmap without freeing: every entry of the n pages goes, and no other; the rest are panics. */
    method Unmap(first: nat, n: nat) returns (r: Outcome, done: nat)
      requires Valid() && first + n <= MAXVPN
      modifies this`mem, this`freelist, this`owner
      ensures Valid() && Framed() && owner == old(owner) && freelist == old(freelist)
      ensures r.Done? ==> done == n
      ensures r.NotMapped? ==> done < n && first + done !in old(Flat(mem, root))
      ensures r.NotALeaf? ==>
        done < n && first + done in old(Flat(mem, root)) && Flags(old(Flat(mem, root))[first + done]) == PTE_V
      ensures r.Done? || r.NotMapped? || r.NotALeaf?
      ensures Flat(mem, root) == old(Flat(mem, root)) - Span(first, done) && forall v :: v in Span(first, done) ==>
        v in old(Flat(mem, root))
    {
      hide Tree, Inner, Flat, Lookup;
      done := 0;
      while done < n
        invariant done <= n && Valid() && Framed() && owner == old(owner) && freelist == old(freelist)
        invariant Flat(mem, root) == old(Flat(mem, root)) - Span(first, done)
        invariant forall v :: v in Span(first, done) ==> v in old(Flat(mem, root))
      {
        r := ClearPage(first + done);
        if !r.Done? {
          return;
        }
        done := done + 1;
      }
      r := Done;
    }

    /** A page just unmapped is mapped again without taking a free page. */
    method Remapped(v: nat, e: nat) returns (r: Outcome)
      requires Valid() && v < MAXVPN && IsValid(e)
      modifies this`mem, this`freelist, this`owner
      ensures Valid() && freelist == old(freelist)
      ensures v in old(Flat(mem, root)) && Flags(old(Flat(mem, root))[v]) != PTE_V ==>
        r.Done? && Flat(mem, root) == old(Flat(mem, root))[v := e]
    {
      hide Tree, Inner, Flat, Lookup;
      r := ClearPage(v);
      if r.Done? {
        r := SetPage(v, e);
      }
    }

    /**
     freewalk: free every table page below p, then p.  `freed` is what went on
     the free list, each page of the subtree once; it fails, the panic
     "freewalk: leaf", exactly when some leaf is left.
     */
    method FreeWalk(p: nat, ghost level: nat) returns (ok: bool, ghost freed: seq<nat>)
      requires Tables(mem) && Proper(mem, p, level)
      modifies this`mem, this`freelist
      ensures Tables(mem) && mem.Keys == old(mem).Keys
      ensures ok == Bare(old(mem), p, level)
      ensures ok ==> freelist == freed + old(freelist) && Lists(freed, Sub(old(mem), p, level))
      ensures forall x :: x in old(mem) && x !in Sub(old(mem), p, level) ==> mem[x] == old(mem)[x]
      decreases level
    {
      hide Lists, Bare, Proper, Child, Walked, Sub, Below;
      ghost var m := mem;
      freed := [];
      WalkedNone(m, p, level);
      var i := 0;
      while i < ENTRIES
        invariant 0 <= i <= ENTRIES && Tables(mem) && mem.Keys == m.Keys
        invariant Walked(m, mem, p, level, i)
        invariant freelist == freed + old(freelist)
        invariant Lists(freed, if level == 0 then {} else Below(m, p, level, i))
      {
        WalkedAt(m, mem, p, level, i);
        var e := mem[p][i];
        if IsValid(e) && !IsLeaf(e) {
          ghost var mid := mem;
          WalkedChild(m, mem, p, level, i);
          ghost var more: seq<nat>;
          ok, more := FreeWalk(e / 1024, level - 1);
          if !ok {
            WalkedFrame(m, mid, mem, p, level, i);
            return;
          }
          WalkedMore(m, mid, mem, p, level, i);
          mem := PutEntry(mem, p, i, 0);
          ListsMore(freed, more, Below(m, p, level, i), Child(m, p, level, i));
          freed := more + freed;
        } else if IsValid(e) {
          LeafStops(m, p, level, i);
          WalkedFrame(m, mem, mem, p, level, i);
          return false, freed;
        } else {
          WalkedOver(m, mem, p, level, i);
        }
        i := i + 1;
      }
      WalkedAll(m, mem, p, level);
      ListsOne(p);
      ListsMore(freed, [p], if level == 0 then {} else Below(m, p, level, ENTRIES), {p});
      freelist := [p] + freelist;
      freed := [p] + freed;
      ok := true;
    }

    /**
     uvmfree once uvmunmap is done: freewalk from the root of a tree whose
     mapped pages all have R, W or X.  Its panic is out of reach exactly when
     no page is mapped; then every table page has gone back once, and with
     what was free already these are all the pages there ever were.
     */
    method Teardown() returns (ok: bool, ghost freed: seq<nat>)
      requires Valid() && Leafy(Flat(mem, root))
      modifies this`mem, this`freelist
      ensures ok <==> old(Flat(mem, root)) == imap[]
      ensures ok ==> freelist == freed + old(freelist) && Lists(freed, owner.Keys) && Lists(freelist, old(Pages()))
      ensures forall x :: x in old(mem) && x !in owner ==> x in mem && mem[x] == old(mem)[x]
    {
      hide Tree, Inner, Flat, Bottom, Proper, Bare, Sub;
      BottomLeaves(mem, root, owner);
      TreeProper(mem, root, owner);
      BareIsEmpty(mem, root, owner);
      ok, freed := FreeWalk(root, 2);
    }
  }

  // A list of these pages, each once.
  ghost predicate Lists(list: seq<nat>, pages: set<nat>) {
    && (forall k :: 0 <= k < |list| ==> list[k] in pages)
    && (forall x :: x in pages ==> x in list)
    && (forall j, k :: 0 <= j < k < |list| ==> list[j] != list[k])
  }

  lemma ListsMore(list: seq<nat>, more: seq<nat>, a: set<nat>, b: set<nat>)
    requires Lists(list, a) && Lists(more, b) && a !! b
    ensures Lists(more + list, a + b)
  {
  }

  // freewalk of p has dealt with the first i entries: their subtrees had no leaf; the rest of memory is as it was.
  ghost predicate Walked(m: Memory, m': Memory, p: nat, level: nat, i: nat)
    requires Tables(m) && Tables(m') && i <= ENTRIES
  {
    && p in m && p in m'
    && (forall x :: x in m && x != p && (level == 0 || x !in Below(m, p, level, i)) ==> x in m' && m'[x] == m[x])
    && (forall j :: i <= j < ENTRIES ==> m'[p][j] == m[p][j])
    && (forall j :: 0 <= j < i && IsValid(m[p][j]) ==> level > 0 && Bare(m, m[p][j] / 1024, level - 1))
  }

  lemma WalkedNone(m: Memory, p: nat, level: nat)
    requires Tables(m) && Proper(m, p, level)
    ensures Walked(m, m, p, level, 0) && Lists([], {}) && (level > 0 ==> Below(m, p, level, 0) == {})
  {
  }

  lemma ListsOne(p: nat)
    ensures Lists([p], {p})
  {
  }

  lemma WalkedChild(m: Memory, m': Memory, p: nat, level: nat, i: nat)
    requires Tables(m) && Tables(m') && Proper(m, p, level) && i < ENTRIES && Walked(m, m', p, level, i)
    requires IsValid(m'[p][i]) && !IsLeaf(m'[p][i])
    ensures level > 0 && Follow(m, p, i) == Some(m'[p][i] / 1024)
    ensures Proper(m', m'[p][i] / 1024, level - 1) && Child(m, p, level, i) == Sub(m', m'[p][i] / 1024, level - 1)
    ensures Bare(m', m'[p][i] / 1024, level - 1) == Bare(m, m[p][i] / 1024, level - 1)
  {
    ChildBelow(m, p, level, i, ENTRIES);
    SubFrame(m, m', m[p][i] / 1024, level - 1);
  }

  lemma WalkedMore(m: Memory, mid: Memory, m': Memory, p: nat, level: nat, i: nat)
    requires Tables(m) && Tables(mid) && Tables(m') && Proper(m, p, level) && i < ENTRIES && level > 0
    requires Walked(m, mid, p, level, i) && Follow(m, p, i).Some? && Bare(m, m[p][i] / 1024, level - 1)
    requires m'.Keys == mid.Keys && forall x :: x in mid && x !in Child(m, p, level, i) ==> m'[x] == mid[x]
    ensures p in m' && Walked(m, PutEntry(m', p, i, 0), p, level, i + 1)
    ensures Below(m, p, level, i) !! Child(m, p, level, i)
    ensures Below(m, p, level, i + 1) == Below(m, p, level, i) + Child(m, p, level, i)
  {
    ChildBelow(m, p, level, i, ENTRIES);
  }

  lemma WalkedAt(m: Memory, m': Memory, p: nat, level: nat, i: nat)
    requires Tables(m) && Tables(m') && i < ENTRIES && Walked(m, m', p, level, i)
    ensures p in m && p in m' && m'[p][i] == m[p][i]
  {
  }

  // A leaf below entry i is a leaf below p.
  lemma WalkedFrame(m: Memory, mid: Memory, m': Memory, p: nat, level: nat, i: nat)
    requires Tables(m) && Tables(mid) && Tables(m') && Proper(m, p, level) && i < ENTRIES && Walked(m, mid, p, level, i)
    requires IsValid(m[p][i]) && (level > 0 ==> !Bare(m, m[p][i] / 1024, level - 1))
    requires m'.Keys == mid.Keys && forall x :: x in mid && (level == 0 || x !in Child(m, p, level, i)) ==>
      m'[x] == mid[x]
    ensures !Bare(m, p, level)
    ensures forall x :: x in m && x !in Sub(m, p, level) ==> x in m' && m'[x] == m[x]
  {
    if level > 0 {
      ChildBelow(m, p, level, i, ENTRIES);
      BelowGrows(m, p, level, i, ENTRIES);
    }
  }

  lemma LeafStops(m: Memory, p: nat, level: nat, i: nat)
    requires Tables(m) && Proper(m, p, level) && i < ENTRIES && IsValid(m[p][i]) && IsLeaf(m[p][i])
    ensures level == 0
  {
  }

  lemma {:induction false} BelowGrows(m: Memory, p: nat, level: nat, i: nat, n: nat)
    requires Tables(m) && i <= n <= ENTRIES && level > 0
    ensures Below(m, p, level, i) <= Below(m, p, level, n)
    decreases n
  {
    if i < n {
      BelowGrows(m, p, level, i, n - 1);
    }
  }

  lemma WalkedOver(m: Memory, m': Memory, p: nat, level: nat, i: nat)
    requires Tables(m) && Tables(m') && i < ENTRIES && Walked(m, m', p, level, i) && !IsValid(m'[p][i])
    ensures Walked(m, m', p, level, i + 1)
    ensures level > 0 ==> Below(m, p, level, i + 1) == Below(m, p, level, i)
  {
    if level > 0 {
      assert Child(m, p, level, i) == {};
    }
  }

  lemma WalkedAll(m: Memory, m': Memory, p: nat, level: nat)
    requires Tables(m) && Tables(m') && Proper(m, p, level) && Walked(m, m', p, level, ENTRIES)
    ensures Bare(m, p, level)
    ensures forall x :: x in m && x !in Sub(m, p, level) ==> x in m' && m'[x] == m[x]
    ensures level > 0 ==> p !in Below(m, p, level, ENTRIES)
    ensures Sub(m, p, level) == (if level == 0 then {} else Below(m, p, level, ENTRIES)) + {p}
  {
  }

  lemma TablePage(m: Memory, root: nat, owner: map<nat, Node>, v: nat, level: nat, p: nat)
    requires Tree(m, root, owner) && 1 <= level <= 2
    requires level == 2 ==> p == root
    requires level == 1 ==> MidPage(m, root, Index(2, v)) == Some(p)
    ensures p in owner && !owner[p].Low? && p in m && root in owner && (level == 1 ==> p != root)
  {
  }

  // ---- teardown

  // The table pages below the first n entries of table p, and all of p's subtree.
  ghost function Below(m: Memory, p: nat, level: nat, n: nat): set<nat>
    requires Tables(m) && n <= ENTRIES && level > 0
    decreases level, n
  {
    if n == 0 then {}
    else Below(m, p, level, n - 1) + Child(m, p, level, n - 1)
  }

  ghost function Child(m: Memory, p: nat, level: nat, i: nat): set<nat>
    requires Tables(m) && i < ENTRIES && level > 0
    decreases level, i, 0
  {
    if Follow(m, p, i).Some? then Sub(m, Follow(m, p, i).value, level - 1) else {}
  }

  ghost function Sub(m: Memory, p: nat, level: nat): set<nat>
    requires Tables(m)
    decreases level, ENTRIES + 1
  {
    if level == 0 then {p} else {p} + Below(m, p, level, ENTRIES)
  }

  // A subtree as walk and mappages build it: inner entries point down, bottom entries are leaves, no page is shared.
  ghost predicate Proper(m: Memory, p: nat, level: nat)
    requires Tables(m)
    decreases level
  {
    && p in m
    && (level == 0 ==> forall i :: 0 <= i < ENTRIES && IsValid(m[p][i]) ==> IsLeaf(m[p][i]))
    && (level > 0 ==>
      && (forall i :: 0 <= i < ENTRIES && IsValid(m[p][i]) ==> !IsLeaf(m[p][i]) && Proper(m, m[p][i] / 1024, level - 1))
      && p !in Below(m, p, level, ENTRIES)
      && (forall i :: 0 <= i < ENTRIES ==> Below(m, p, level, i) !! Child(m, p, level, i)))
  }

  // No leaf is left.
  ghost predicate Bare(m: Memory, p: nat, level: nat)
    requires Tables(m)
    decreases level
  {
    p in m && forall i :: 0 <= i < ENTRIES && IsValid(m[p][i]) ==> level > 0 && Bare(m, m[p][i] / 1024, level - 1)
  }

  ghost predicate Agree(m: Memory, m': Memory, pages: set<nat>) {
    forall p :: p in pages && p in m ==> p in m' && m'[p] == m[p]
  }

  lemma {:induction false} ChildBelow(m: Memory, p: nat, level: nat, i: nat, n: nat)
    requires Tables(m) && i < n <= ENTRIES && level > 0
    ensures Child(m, p, level, i) <= Below(m, p, level, n)
    decreases n
  {
    if i < n - 1 {
      ChildBelow(m, p, level, i, n - 1);
    }
  }

  // Only the pages of a subtree decide what it looks like.
  lemma {:induction false} SubFrame(m: Memory, m': Memory, p: nat, level: nat)
    requires Tables(m) && Tables(m') && Proper(m, p, level) && Agree(m, m', Sub(m, p, level))
    ensures Sub(m', p, level) == Sub(m, p, level) && Proper(m', p, level) && Bare(m', p, level) == Bare(m, p, level)
    decreases level, 1
  {
    if level > 0 {
      forall i | 0 <= i < ENTRIES ensures Child(m', p, level, i) == Child(m, p, level, i)
        ensures IsValid(m[p][i]) ==>
          Proper(m', m[p][i] / 1024, level - 1)
            && Bare(m', m[p][i] / 1024, level - 1) == Bare(m, m[p][i] / 1024, level - 1)
      {
        ChildBelow(m, p, level, i, ENTRIES);
        if IsValid(m[p][i]) {
          SubFrame(m, m', m[p][i] / 1024, level - 1);
        }
      }
      forall n | 0 <= n <= ENTRIES ensures Below(m', p, level, n) == Below(m, p, level, n) {
        BelowSame(m, m', p, level, n);
      }
    }
  }

  lemma {:induction false} BelowSame(m: Memory, m': Memory, p: nat, level: nat, n: nat)
    requires Tables(m) && Tables(m') && n <= ENTRIES && level > 0
    requires forall i :: 0 <= i < n ==> Child(m', p, level, i) == Child(m, p, level, i)
    ensures Below(m', p, level, n) == Below(m, p, level, n)
    decreases n
  {
    if n > 0 {
      BelowSame(m, m', p, level, n - 1);
    }
  }

  // ---- the tree of a process is a proper subtree, and the subtree is all of it

  // Bottom entries are leaves.
  ghost predicate Bottom(m: Memory, owner: map<nat, Node>)
    requires Tables(m)
  {
    forall p :: p in owner && owner[p].Low? ==> AllLeaves(m, p)
  }

  ghost predicate AllLeaves(m: Memory, p: nat)
    requires Tables(m)
  {
    p in m && forall i :: 0 <= i < ENTRIES && IsValid(m[p][i]) ==> IsLeaf(m[p][i])
  }

  // What the entry i1 of a middle table contributes: one bottom table, or nothing.
  lemma LowChild(m: Memory, root: nat, owner: map<nat, Node>, i2: nat, p: nat, i1: nat)
    requires Tree(m, root, owner) && Inner(m, root, owner) && Bottom(m, owner) && i2 < ENTRIES && i1 < ENTRIES
      && MidPage(m, root, i2) == Some(p)
    ensures p in m && (IsValid(m[p][i1]) ==> !IsLeaf(m[p][i1]) && Proper(m, m[p][i1] / 1024, 0))
    ensures forall x :: x in Child(m, p, 1, i1) <==> x in owner && owner[x] == Low(i2 * 512 + i1)
    ensures p in owner && owner[p] == Mid(i2)
  {
    var low := LowPage(m, root, i2, i1);
    assert Child(m, p, 1, i1) == if low.Some? then {low.value} else {};
    if low.Some? {
      assert AllLeaves(m, low.value);
    }
  }

  lemma LowSub(m: Memory, root: nat, owner: map<nat, Node>, i2: nat, p: nat)
    requires Tables(m) && Tree(m, root, owner) && Inner(m, root, owner) && Bottom(m, owner) && i2 < ENTRIES
      && MidPage(m, root, i2) == Some(p)
    ensures p in m && Proper(m, p, 1)
    ensures forall x :: x in Sub(m, p, 1) <==> x == p || (x in owner && owner[x].Low? && owner[x].i21 / 512 == i2)
  {
    hide Tree, Inner, Bottom, Child, MidPage;
    LowChild(m, root, owner, i2, p, 0);
    BelowLows(m, root, owner, i2, p, ENTRIES);
    forall i1 | 0 <= i1 < ENTRIES
      ensures IsValid(m[p][i1]) ==> !IsLeaf(m[p][i1]) && Proper(m, m[p][i1] / 1024, 0)
      ensures Below(m, p, 1, i1) !! Child(m, p, 1, i1)
    {
      BelowLows(m, root, owner, i2, p, i1);
      LowChild(m, root, owner, i2, p, i1);
    }
  }

  lemma {:induction false} BelowLows(m: Memory, root: nat, owner: map<nat, Node>, i2: nat, p: nat, n: nat)
    requires Tree(m, root, owner) && i2 < ENTRIES && MidPage(m, root, i2) == Some(p) && n <= ENTRIES
    ensures forall x :: x in Below(m, p, 1, n) <==>
      x in owner && owner[x].Low? && owner[x].i21 / 512 == i2 && owner[x].i21 % 512 < n
    decreases n
  {
    if n > 0 {
      BelowLows(m, root, owner, i2, p, n - 1);
      var low := LowPage(m, root, i2, n - 1);
      assert Child(m, p, 1, n - 1) == if low.Some? then {low.value} else {};
    }
  }

  // What the entry i2 of the root contributes.
  lemma MidChild(m: Memory, root: nat, owner: map<nat, Node>, i2: nat)
    requires Tree(m, root, owner) && Inner(m, root, owner) && Bottom(m, owner) && i2 < ENTRIES
    ensures root in m && (IsValid(m[root][i2]) ==> !IsLeaf(m[root][i2]) && Proper(m, m[root][i2] / 1024, 1))
    ensures forall x :: x in Child(m, root, 2, i2) <==>
      x in owner && ((owner[x].Mid? && owner[x].i2 == i2) || (owner[x].Low? && owner[x].i21 / 512 == i2))
  {
    var mid := MidPage(m, root, i2);
    if mid.Some? {
      LowSub(m, root, owner, i2, mid.value);
      assert owner[mid.value] == Mid(i2);
    }
  }

  lemma {:induction false} BelowMids(m: Memory, root: nat, owner: map<nat, Node>, n: nat)
    requires Tree(m, root, owner) && Inner(m, root, owner) && Bottom(m, owner) && n <= ENTRIES
    ensures forall x :: x in Below(m, root, 2, n) <==>
      x in owner && ((owner[x].Mid? && owner[x].i2 < n) || (owner[x].Low? && owner[x].i21 / 512 < n))
    decreases n
  {
    hide Inner, Bottom, Child;
    if n > 0 {
      BelowMids(m, root, owner, n - 1);
      MidChild(m, root, owner, n - 1);
    }
  }

  lemma OwnerKinds(m: Memory, root: nat, owner: map<nat, Node>)
    requires Tree(m, root, owner)
    ensures forall x :: x in owner <==>
      x == root || (x in owner && ((owner[x].Mid? && owner[x].i2 < ENTRIES)
        || (owner[x].Low? && owner[x].i21 / 512 < ENTRIES)))
    ensures root in owner && owner[root] == Root
  {
  }

  /** freewalk from the root reaches every table page of the tree. */
  lemma TreeProper(m: Memory, root: nat, owner: map<nat, Node>)
    requires Tables(m) && Tree(m, root, owner) && Inner(m, root, owner) && Bottom(m, owner)
    ensures Proper(m, root, 2) && Sub(m, root, 2) == owner.Keys
  {
    hide Inner, Bottom, Child, Tree;
    BelowMids(m, root, owner, ENTRIES);
    OwnerKinds(m, root, owner);
    MidChild(m, root, owner, 0);
    forall i2 | 0 <= i2 < ENTRIES
      ensures IsValid(m[root][i2]) ==> !IsLeaf(m[root][i2]) && Proper(m, m[root][i2] / 1024, 1)
      ensures Below(m, root, 2, i2) !! Child(m, root, 2, i2)
    {
      BelowMids(m, root, owner, i2);
      MidChild(m, root, owner, i2);
    }
  }

  // ---- no page mapped, no leaf left

  ghost predicate Leafy(flat: imap<nat, nat>) {
    forall v :: v in flat ==> IsLeaf(flat[v])
  }

  lemma {:induction false} LeafyMore(flat: imap<nat, nat>, first: nat, pa: nat, perm: nat, n: nat)
    requires perm < 1024 && perm / 2 % 8 != 0 && Leafy(flat)
    ensures Leafy(flat + NewEntries(first, pa, perm, n))
    decreases n
  {
    hide NewEntry, IsLeaf;
    if n > 0 {
      LeafyMore(flat, first, pa, perm, n - 1);
      NewLeaf(pa, perm, n - 1);
      var entries := NewEntries(first, pa, perm, n - 1);
      forall v | v in flat + NewEntries(first, pa, perm, n) ensures IsLeaf((flat + NewEntries(first, pa, perm, n))[v]) {
        assert v != first + n - 1 ==> (flat + NewEntries(first, pa, perm, n))[v] == (flat + entries)[v];
      }
    }
  }

  // An entry of a bottom table is the flat map's entry of some page.
  lemma BottomEntry(m: Memory, root: nat, owner: map<nat, Node>, p: nat, i: nat)
    requires Tree(m, root, owner) && Inner(m, root, owner) && p in owner && owner[p].Low? && i < ENTRIES
    ensures p in m && owner[p].i21 / 512 < ROOTS
    ensures var v := Vpn(owner[p].i21 / 512, owner[p].i21 % 512, i);
      v < MAXVPN && Lookup(m, root, v) == if IsValid(m[p][i]) then Some(m[p][i]) else None
  {
    ToIndices(owner[p].i21 / 512, owner[p].i21 % 512, i);
  }

  lemma BottomLeaves(m: Memory, root: nat, owner: map<nat, Node>)
    requires Tables(m) && Tree(m, root, owner) && Inner(m, root, owner) && Leafy(Flat(m, root))
    ensures Bottom(m, owner)
  {
    hide Inner, Lookup, Tree;
    forall p, i | p in owner && owner[p].Low? && 0 <= i < ENTRIES
      ensures p in m && (IsValid(m[p][i]) ==> IsLeaf(m[p][i]))
    {
      BottomEntry(m, root, owner, p, i);
      var v := Vpn(owner[p].i21 / 512, owner[p].i21 % 512, i);
      assert IsValid(m[p][i]) ==> v in Flat(m, root);
    }
    forall p | p in owner && owner[p].Low? ensures AllLeaves(m, p) {
      BottomEntry(m, root, owner, p, 0);
    }
  }

  /** freewalk's panic is a page still mapped. */
  lemma BareIsEmpty(m: Memory, root: nat, owner: map<nat, Node>)
    requires Tree(m, root, owner) && Inner(m, root, owner)
    ensures Bare(m, root, 2) <==> Flat(m, root) == imap[]
  {
    if Flat(m, root) == imap[] {
      forall p | p in owner && owner[p].Low? ensures Bare(m, p, 0) {
        EmptyBottom(m, root, owner, p);
      }
      EmptyBare(m, root, owner);
    } else if Bare(m, root, 2) {
      forall v | 0 <= v < MAXVPN ensures Lookup(m, root, v) == None {
        BareLookup(m, root, owner, v);
      }
    }
  }

  lemma EmptyBottom(m: Memory, root: nat, owner: map<nat, Node>, p: nat)
    requires Tables(m) && Tree(m, root, owner) && Inner(m, root, owner) && Flat(m, root) == imap[]
    requires p in owner && owner[p].Low?
    ensures Bare(m, p, 0)
  {
    hide Inner, Lookup, Tree;
    BottomEntry(m, root, owner, p, 0);
    forall i | 0 <= i < ENTRIES ensures !IsValid(m[p][i]) {
      BottomEntry(m, root, owner, p, i);
      assert Vpn(owner[p].i21 / 512, owner[p].i21 % 512, i) !in Flat(m, root);
    }
  }

  lemma EmptyBare(m: Memory, root: nat, owner: map<nat, Node>)
    requires Tree(m, root, owner) && forall p :: p in owner && owner[p].Low? ==> Bare(m, p, 0)
    ensures Bare(m, root, 2)
  {
    forall i2 | 0 <= i2 < ENTRIES && IsValid(m[root][i2]) ensures Bare(m, m[root][i2] / 1024, 1) {
      var p := m[root][i2] / 1024;
      assert MidPage(m, root, i2) == Some(p);
      forall i1 | 0 <= i1 < ENTRIES && IsValid(m[p][i1]) ensures Bare(m, m[p][i1] / 1024, 0) {
        assert LowPage(m, root, i2, i1) == Some(m[p][i1] / 1024);
      }
    }
  }

  lemma BareLookup(m: Memory, root: nat, owner: map<nat, Node>, v: nat)
    requires Tree(m, root, owner) && Bare(m, root, 2) && v < MAXVPN
    ensures Lookup(m, root, v) == None
  {
    var mid := MidPage(m, root, Index(2, v));
    if mid.Some? {
      assert Bare(m, mid.value, 1);
      var low := Follow(m, mid.value, Index(1, v));
      assert low.Some? ==> Bare(m, low.value, 0);
    }
  }
}
