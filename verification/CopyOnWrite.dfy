/**
 kernel/kalloc.c and the user memory part of kernel/vm.c: free list, reference
 counts, page tables and physical memory, changed in place by the kernel's
 own loops.  The contracts relate every operation to a simple machine in which
 each process owns a private copy of each of its pages.
 */
module CopyOnWrite {
  import opened Common
  import opened Paging
  import opened CowState

  datatype Mapping = Mapped | NoMemory | Remap   // mappages: 0, -1, panic "remap"

  // Pages in use, leaves and sizes are untouched; only `pid` may have gained tables.
  ghost predicate Kept(s: Vm, t: Vm, pid: Pid) {
    && Sized(s) && Sized(t) && |s.use| == |t.use|
    && s.spaces.Keys == t.spaces.Keys
    && (forall q :: q in s.spaces ==> t.spaces[q].leaves == s.spaces[q].leaves && t.spaces[q].sz == s.spaces[q].sz)
    && (forall q :: q in s.spaces && q != pid ==> t.spaces[q] == s.spaces[q])
    && (pid in s.spaces ==> forall m :: m in s.spaces[pid].nodes ==> m in t.spaces[pid].nodes)
    && (forall p :: 0 <= p < |s.use| && !s.use[p].Free? ==>
      t.use[p] == s.use[p] && t.mem[p] == s.mem[p] && t.refs[p] == s.refs[p])
  }

  // The tables above page v are there, each new one out of a free page, and `data` more free pages are gone.
  ghost predicate Grown(s: Vm, t: Vm, pid: Pid, v: nat, data: nat) {
    && pid in s.spaces && pid in t.spaces
    && t.spaces[pid].nodes.Keys == s.spaces[pid].nodes.Keys + {MidOf(v), LowOf(v)}
    && |t.freelist| == |s.freelist| - data - Fresh(s.spaces[pid].nodes.Keys, v)
  }

  // The same for the pages from lo to hi.
  ghost predicate Taken(s: Vm, t: Vm, pid: Pid, lo: nat, hi: nat, data: nat) {
    && pid in s.spaces && pid in t.spaces
    && t.spaces[pid].nodes.Keys == s.spaces[pid].nodes.Keys + PathNodes(lo, hi)
    && |t.freelist| == |s.freelist| - data - Missing(s.spaces[pid].nodes.Keys, lo, hi)
  }

  lemma TakenNone(s: Vm, pid: Pid, lo: nat)
    requires pid in s.spaces
    ensures Taken(s, s, pid, lo, lo, 0)
  {
    NoPath(s.spaces[pid].nodes.Keys, lo);
  }

  lemma TakenMore(s: Vm, m: Vm, t: Vm, pid: Pid, lo: nat, i: nat, data: nat, more: nat)
    requires lo <= i && Taken(s, m, pid, lo, i, data) && Grown(m, t, pid, i, more)
    ensures Taken(s, t, pid, lo, i + 1, data + more)
  {
    MissingMore(s.spaces[pid].nodes.Keys, lo, i);
  }

  lemma TakenAll(s: Vm, t: Vm, pid: Pid, lo: nat, hi: nat, data: nat)
    requires Taken(s, t, pid, lo, hi, data)
    ensures |s.freelist| >= data + Missing(s.spaces[pid].nodes.Keys, lo, hi)
  {
  }

  // Out of memory at page i is out of memory for the whole range.
  lemma TakenShort(s: Vm, m: Vm, pid: Pid, lo: nat, i: nat, hi: nat, data: nat, more: nat)
    requires lo <= i < hi && Taken(s, m, pid, lo, i, data) && |m.freelist| < more + Fresh(m.spaces[pid].nodes.Keys, i)
    ensures |s.freelist| < data + more + Missing(s.spaces[pid].nodes.Keys, lo, hi)
  {
    MissingMore(s.spaces[pid].nodes.Keys, lo, i);
    MissingGrows(s.spaces[pid].nodes.Keys, lo, i + 1, hi);
  }

  lemma GrowKept(s: Vm, pid: Pid, node: Node)
    requires Sized(s) && FreeInv(s) && pid in s.spaces && node !in s.spaces[pid].nodes
    ensures Kept(s, s, pid)
    ensures s.freelist != [] ==> Kept(s, Hang(Alloc(s), pid, node, s.freelist[0]), pid)
  {
  }

  lemma KeptHas(s: Vm, pid: Pid)
    requires Sized(s)
    ensures Kept(s, s, pid)
  {
  }

  lemma KeptLeaves(s: Vm, t: Vm, pid: Pid)
    requires Kept(s, t, pid) && pid in s.spaces
    ensures pid in t.spaces && t.spaces[pid].leaves == s.spaces[pid].leaves && t.spaces[pid].sz == s.spaces[pid].sz
  {
  }

  function ChildAt(level: nat, v: nat): Node {
    if level == 2 then MidOf(v) else LowOf(v)
  }

  // ---- the table pages a range of pages needs

  ghost function PathNodes(lo: nat, hi: nat): set<Node> {
    if hi <= lo then {} else PathNodes(lo, hi - 1) + {MidOf(hi - 1), LowOf(hi - 1)}
  }

  // Tables that walk makes for page v where only `nodes` are there.
  ghost function Fresh(nodes: set<Node>, v: nat): nat {
    (if MidOf(v) in nodes then 0 else 1) + (if LowOf(v) in nodes then 0 else 1)
  }

  ghost function Missing(nodes: set<Node>, lo: nat, hi: nat): nat {
    |PathNodes(lo, hi) - nodes|
  }

  lemma OneMore(p: set<Node>, nodes: set<Node>, x: Node)
    ensures |p + {x} - nodes| == |p - nodes| + if x in nodes + p then 0 else 1
  {
    if x in nodes + p {
      assert p + {x} - nodes == p - nodes;
    } else {
      assert p + {x} - nodes == (p - nodes) + {x};
    }
  }

  lemma PathMore(lo: nat, hi: nat)
    requires lo <= hi
    ensures PathNodes(lo, hi + 1) == PathNodes(lo, hi) + {MidOf(hi)} + {LowOf(hi)}
  {
  }

  lemma MissingMore(nodes: set<Node>, lo: nat, hi: nat)
    requires lo <= hi
    ensures Missing(nodes, lo, hi + 1) == Missing(nodes, lo, hi) + Fresh(nodes + PathNodes(lo, hi), hi)
    ensures nodes + PathNodes(lo, hi + 1) == nodes + PathNodes(lo, hi) + {MidOf(hi), LowOf(hi)}
  {
    hide PathNodes;
    PathMore(lo, hi);
    OneMore(PathNodes(lo, hi), nodes, MidOf(hi));
    OneMore(PathNodes(lo, hi) + {MidOf(hi)}, nodes, LowOf(hi));
  }

  lemma NoPath(nodes: set<Node>, lo: nat)
    ensures Missing(nodes, lo, lo) == 0 && nodes + PathNodes(lo, lo) == nodes
  {
    assert PathNodes(lo, lo) - nodes == {};
  }

  lemma {:induction false} MissingGrows(nodes: set<Node>, lo: nat, hi: nat, hi': nat)
    requires lo <= hi <= hi'
    ensures Missing(nodes, lo, hi) <= Missing(nodes, lo, hi')
    decreases hi'
  {
    if hi < hi' {
      MissingGrows(nodes, lo, hi, hi' - 1);
      MissingMore(nodes, lo, hi' - 1);
    }
  }

  lemma {:induction false} PathHas(n: nat)
    ensures forall node :: node in PathNodes(0, n) <==>
      (node.Low? && node.i21 < (n + 511) / 512) || (node.Mid? && node.i2 < (n + 262143) / 262144)
  {
    if n > 0 {
      PathHas(n - 1);
      assert (n - 1) / 512 / 512 == (n - 1) / 262144;
    }
  }

  // One more group of 512, or of 512 * 512, begins at page n.
  lemma NextGroup(n: nat)
    ensures (n + 512) / 512 == (n + 511) / 512 + if n / 512 < (n + 511) / 512 then 0 else 1
    ensures (n + 262144) / 262144 == (n + 262143) / 262144 + if n / 262144 < (n + 262143) / 262144 then 0 else 1
  {
  }

  // The last two pages below MAXVA, which every table maps.
  const TRAMPOLINE: nat := MAXVA / PGSIZE - 1
  const TRAPFRAME: nat := MAXVA / PGSIZE - 2

  // What allocproc and proc_pagetable take: the trapframe, the root, and the tables over these two pages.
  const BARE: set<Node> := {Frame, Root, MidOf(TRAMPOLINE), LowOf(TRAMPOLINE)}

  lemma Bare()
    ensures MidOf(TRAMPOLINE) == MidOf(TRAPFRAME) == Mid(255) && LowOf(TRAMPOLINE) == LowOf(TRAPFRAME) == Low(131071)
  {
  }

  /**
   The tables of a process with n pages from address 0 on: one for every 512 of them, and
   one for every 512 of those, but for the two that are there already.
   */
  lemma {:induction false} TablesFor(n: nat)
    ensures Missing(BARE, 0, n) == (n + 511) / 512 + (n + 262143) / 262144
      - (if 131071 * 512 < n then 1 else 0) - (if 255 * 262144 < n then 1 else 0)
  {
    hide PathNodes, Missing;
    Bare();
    if n > 0 {
      var m := n - 1;
      TablesFor(m);
      PathHas(m);
      MissingMore(BARE, 0, m);
      NextGroup(m);
      assert m / 512 / 512 == m / 262144;
    } else {
      NoPath(BARE, 0);
    }
  }

  // fork takes the child's trapframe and bare table, and the tables over its n pages.
  function ForkNeeds(n: nat): nat {
    4 + (n + 511) / 512 + (n + 262143) / 262144
      - (if 131071 * 512 < n then 1 else 0) - (if 255 * 262144 < n then 1 else 0)
  }

  datatype Fault = Ready | Refused | OutOfMemory   // cowalloc: 0, -1, panic

  // PGROUNDDOWN
  function RoundDown(va: nat): (r: nat)
    ensures r <= va && r / PGSIZE == va / PGSIZE
  {
    va / PGSIZE * PGSIZE
  }

  // A process that owns the pages of `im` may store to va.
  predicate CanWrite(im: Image, va: nat) {
    va < MAXVA && va / PGSIZE in im.pages && im.pages[va / PGSIZE].u && im.pages[va / PGSIZE].w
  }

  // The process may write at va, other leaves are on the page, and no page is free to copy it to.
  ghost predicate NoRoom(s: Vm, pid: Pid, va: nat) {
    && s.freelist == [] && va < MAXVA && pid in s.spaces && va / PGSIZE in s.spaces[pid].leaves
    && var pte := s.spaces[pid].leaves[va / PGSIZE];
      pte.u && Writable(pte) && pte.ppn < |s.refs| && s.refs[pte.ppn] > 1
  }

  // Nothing has to be copied through a leaf that is writable already.
  lemma HasRoom(s: Vm, pid: Pid, va: nat)
    requires Sized(s) && LeafInv(s) && WriteInv(s)
    requires pid in s.spaces && va / PGSIZE in s.spaces[pid].leaves && s.spaces[pid].leaves[va / PGSIZE].w
    ensures !NoRoom(s, pid, va)
  {
  }

  function Own(pte: Pte, q: nat): Pte {
    pte.(ppn := q, w := true, c := false)
  }

  lemma PathOf(s: Vm, pid: Pid, v: nat)
    requires PathInv(s) && pid in s.spaces && v in s.spaces[pid].leaves
    ensures MidOf(v) in s.spaces[pid].nodes && LowOf(v) in s.spaces[pid].nodes
  {
  }

  lemma Counted(s: Vm, p: nat)
    requires Sized(s) && CountInv(s) && p < |s.use| && s.use[p].Data?
    ensures s.refs[p] == |s.use[p].mappers| >= 1
  {
  }

  lemma SeenAt(s: Vm, pid: Pid)
    requires Sized(s) && LeafInv(s) && pid in s.spaces
    ensures pid in Abs(s) && Abs(s)[pid].pages.Keys == s.spaces[pid].leaves.Keys && Abs(s)[pid].sz == s.spaces[pid].sz
    ensures forall v :: v in s.spaces[pid].leaves ==>
      s.spaces[pid].leaves[v].ppn < |s.mem| && Abs(s)[pid].pages[v] == Seen(s.mem, s.spaces[pid].leaves[v])
  {
    AbsAt(s, pid);
  }

  // A page dropped and entered again on a copy looks the same.
  lemma CopyRestores(s: Vm, t: Vm, pid: Pid, v: nat, pte: Pte)
    requires Sized(s) && LeafInv(s) && Sized(t) && LeafInv(t) && pid in s.spaces && pid in t.spaces
    requires v in s.spaces[pid].leaves && pte.ppn < |t.mem|
    requires t.spaces[pid] == CutLeaf(s.spaces[pid], v)
    requires Abs(t) == Abs(s)[pid := Image(s.spaces[pid].sz, Abs(s)[pid].pages - {v})]
    requires s.spaces[pid].leaves[v].ppn < |s.mem| && Seen(t.mem, pte) == Seen(s.mem, s.spaces[pid].leaves[v])
    ensures Abs(t)[pid := ImageOf(t.mem, PutLeaf(t.spaces[pid], v, pte))] == Abs(s)
  {
    hide LeafInv, Abs, Seen;
    SeenAt(s, pid);
    SeenAt(t, pid);
    assert ImageOf(t.mem, PutLeaf(t.spaces[pid], v, pte)).pages == Abs(s)[pid].pages;
  }

  // The page q holds a copy of the page v had; with v moved over to it, no one sees a difference.
  lemma CopyKeeps(s: Vm, pid: Pid, v: nat, pte: Pte, q: nat)
    requires Inv(s) && pid in s.spaces && v in s.spaces[pid].leaves && pte == s.spaces[pid].leaves[v] && Writable(pte)
    requires q < |s.use| && s.use[q] == Held && pte.ppn < |s.mem| && s.mem[q] == s.mem[pte.ppn]
    ensures var t := Leave(s, pid, v);
      CanEnter(t, pid, v, Own(pte, q)) && Inv(Enter(t, pid, v, Own(pte, q)))
        && Abs(Enter(t, pid, v, Own(pte, q))) == Abs(s)
  {
    hide FreeInv, TableInv, LeafInv, CountInv, WriteInv, PathInv, Abs;
    LeafMapped(s, pid, v);
    LeaveKeeps(s, pid, v);
    PathOf(s, pid, v);
    var t := Leave(s, pid, v);
    EnterKeeps(t, pid, v, Own(pte, q));
    CopyRestores(s, t, pid, v, Own(pte, q));
  }

  // A process image without its pages lo..hi, and with one more page.
  ghost function Without(im: Image, lo: nat, hi: nat): Image {
    Image(im.sz, map v | v in im.pages && !(lo <= v < hi) :: im.pages[v])
  }

  ghost function WithPage(im: Image, v: nat, view: View): Image {
    Image(im.sz, im.pages[v := view])
  }

  lemma WithoutNone(im: Image, lo: nat)
    ensures Without(im, lo, lo) == im
  {
    assert Without(im, lo, lo).pages == im.pages;
  }

  lemma WithoutMore(im: Image, lo: nat, i: nat)
    requires lo <= i
    ensures Without(im, lo, i + 1) == Image(im.sz, Without(im, lo, i).pages - {i})
    ensures Without(im, lo, i).sz == im.sz
    ensures forall v :: v in Without(im, lo, i).pages <==> v in im.pages && !(lo <= v < i)
  {
    assert Without(im, lo, i + 1).pages == Without(im, lo, i).pages - {i};
  }

  // If one leaf of a page cannot be written through, none can.
  lemma NoWriters(s: Vm, pid: Pid, v: nat)
    requires Inv(s) && pid in s.spaces && v in s.spaces[pid].leaves && !s.spaces[pid].leaves[v].w
    ensures var p := s.spaces[pid].leaves[v].ppn;
      && p < |s.use|
      && forall q, t :: (q, t) in Mappers(s.use[p]) && q in s.spaces && t in s.spaces[q].leaves ==>
         !s.spaces[q].leaves[t].w
  {
    hide FreeInv, TableInv, PathInv;
    var p := s.spaces[pid].leaves[v].ppn;
    LeafMapped(s, pid, v);
    forall q, t | (q, t) in Mappers(s.use[p]) && q in s.spaces && t in s.spaces[q].leaves
      ensures !s.spaces[q].leaves[t].w
    {
      if s.spaces[q].leaves[t].w {
        assert s.spaces[q].leaves[t].ppn == p && s.refs[p] == 1;
        OnlyMember(s.use[p].mappers, (q, t));
      }
    }
  }

  lemma EnterAbs(s: Vm, pid: Pid, v: nat, pte: Pte)
    requires CanEnter(s, pid, v, pte)
    ensures Inv(Enter(s, pid, v, pte))
    ensures Abs(Enter(s, pid, v, pte)) == Abs(s)[pid := WithPage(Abs(s)[pid], v, Seen(s.mem, pte))]
  {
    hide FreeInv, TableInv, LeafInv, CountInv, WriteInv, PathInv, Abs, Seen;
    EnterKeeps(s, pid, v, pte);
    SeenAt(s, pid);
    assert ImageOf(s.mem, PutLeaf(s.spaces[pid], v, pte)).pages == Abs(s)[pid].pages[v := Seen(s.mem, pte)];
  }

  // The child's leaf on a write-protected page of the parent.
  lemma ShareKeeps(s: Vm, mid: Vm, parent: Pid, child: Pid, v: nat, pte: Pte)
    requires Inv(s) && parent in s.spaces && child in s.spaces && parent != child
    requires v in s.spaces[parent].leaves && pte == s.spaces[parent].leaves[v] && !pte.w && v !in s.spaces[child].leaves
    requires Inv(mid) && Kept(s, mid, child) && Abs(mid) == Abs(s) && child in mid.spaces
    requires MidOf(v) in mid.spaces[child].nodes && LowOf(v) in mid.spaces[child].nodes
    ensures pte.ppn < |mid.use| && mid.use[pte.ppn].Data? && CanEnter(mid, child, v, pte)
      && Inv(Enter(mid, child, v, pte))
    ensures parent in Abs(s) && child in Abs(s) && v in Abs(s)[parent].pages
    ensures Abs(Enter(mid, child, v, pte)) == Abs(s)[child := WithPage(Abs(s)[child], v, Abs(s)[parent].pages[v])]
  {
    hide FreeInv, TableInv, LeafInv, CountInv, WriteInv, PathInv, Abs;
    NoWriters(mid, parent, v);
    LeafMapped(mid, parent, v);
    EnterAbs(mid, child, v, pte);
    SeenAt(mid, parent);
    SeenAt(s, child);
  }

  // ---- what stays mapped where it was

  lemma LeavePlaces(s: Vm, pid: Pid, v: nat)
    requires Sized(s) && LeafInv(s) && pid in s.spaces && v in s.spaces[pid].leaves
    ensures SameBut(s, Leave(s, pid, v), pid, v, v + 1)
  {
  }

  lemma EnterPlaces(s: Vm, mid: Vm, pid: Pid, v: nat, pte: Pte)
    requires Kept(s, mid, pid) && pid in mid.spaces && pte.ppn < |mid.use|
    ensures SameBut(s, mid, pid, v, v + 1) && SameBut(s, Enter(mid, pid, v, pte), pid, v, v + 1)
  {
  }

  lemma SharePlaces(s: Vm, mid: Vm, parent: Pid, child: Pid, v: nat, pte: Pte)
    requires Inv(s) && parent in s.spaces && v in s.spaces[parent].leaves && pte == s.spaces[parent].leaves[v]
    requires Kept(s, mid, child) && child in mid.spaces
    ensures pte.ppn < |mid.use| && SameBut(s, mid, child, v, v + 1)
      && SameBut(s, Enter(mid, child, v, pte), child, v, v + 1)
  {
    hide FreeInv, TableInv, CountInv, WriteInv, PathInv;
    LeafMapped(s, parent, v);
    EnterPlaces(s, mid, child, v, pte);
  }

  lemma SameWider(s: Vm, t: Vm, pid: Pid, lo: nat, hi: nat, lo': nat, hi': nat)
    requires SameBut(s, t, pid, lo, hi) && (lo == hi || (lo' <= lo && hi <= hi'))
    ensures SameBut(s, t, pid, lo', hi')
  {
  }

  lemma NoneMapped(s: Vm, pid: Pid, lo: nat)
    requires Sized(s) && LeafInv(s) && (pid in s.spaces ==> forall v :: v in s.spaces[pid].leaves ==> v < lo)
    ensures forall v: nat, q: nat :: lo <= v ==> !Maps(s, pid, v, q)
  {
  }

  // Only leaves say what is mapped.
  lemma SameLeafPlaces(s: Vm, t: Vm, pid: Pid)
    requires |t.use| == |s.use| && |t.refs| == |s.refs|
    requires forall q :: q in s.spaces && s.spaces[q].leaves != map[] ==> q in t.spaces
    requires forall q :: q in t.spaces && t.spaces[q].leaves != map[] ==> q in s.spaces
    requires forall q :: q in s.spaces && q in t.spaces ==> t.spaces[q].leaves == s.spaces[q].leaves
    ensures SameBut(s, t, pid, 0, 0)
  {
  }

  lemma KeptPlaces(s: Vm, t: Vm, pid: Pid)
    requires Kept(s, t, pid)
    ensures SameBut(s, t, pid, 0, 0) && t.spaces.Keys == s.spaces.Keys
  {
    SameLeafPlaces(s, t, pid);
  }

  lemma ForkUndone(s: Vm, s1: Vm, s2: Vm, t: Vm, child: Pid, n: nat)
    requires Inv(s) && Inv(t) && SameBut(s, s1, child, 0, 0) && SameBut(s1, s2, child, 0, n)
      && SameBut(s2, t, child, 0, 0)
    requires forall v: nat, q: nat :: !Maps(s, child, v, q) && !Maps(t, child, v, q)
    ensures RolledBack(s, t)
  {
    hide FreeInv, TableInv, LeafInv, CountInv, WriteInv, PathInv, SameBut, RolledBack;
    SameTwice(s, s1, s2, child, 0, 0, n);
    SameWider(s2, t, child, 0, 0, n, n);
    SameTwice(s, s2, t, child, 0, n, n);
    Restored(s, t, child, 0, n);
  }

  lemma Through(s: Vm, t: Vm, u: Vm, w: Vm, pid: Pid, v: nat)
    requires SameBut(s, t, pid, 0, 0) && SameBut(t, u, pid, v, v + 1) && SameBut(u, w, pid, 0, 0)
    ensures SameBut(s, w, pid, v, v + 1)
  {
  }

  lemma SameAgain(s: Vm, t: Vm, u: Vm, pid: Pid, lo: nat, hi: nat)
    requires SameBut(s, t, pid, lo, hi) && SameBut(t, u, pid, lo, hi)
    ensures SameBut(s, u, pid, lo, hi)
  {
  }

  lemma NothingMoved(s: Vm, pid: Pid)
    ensures SameBut(s, s, pid, 0, 0)
  {
  }

  lemma SameChain(s: Vm, t: Vm, u: Vm, pid: Pid, i: nat, n: nat)
    requires SameBut(s, t, pid, 0, i + 1) && SameBut(t, u, pid, 0, i) && i < n
    ensures SameBut(s, u, pid, 0, n)
  {
  }

  lemma SameTwice(s: Vm, t: Vm, u: Vm, pid: Pid, lo: nat, mid: nat, hi: nat)
    requires SameBut(s, t, pid, lo, mid) && SameBut(t, u, pid, mid, hi) && lo <= mid <= hi
    ensures SameBut(s, u, pid, lo, hi)
  {
  }

  lemma AllAccounted(s: Vm)
    requires Inv(s)
    ensures Holding(s.use) == {} ==> forall p :: 0 <= p < |s.use| ==>
      (p in s.freelist <==> LeavesOn(s, p) == {} && !IsTable(s, p))
  {
    hide Inv, Holding, LeavesOn, IsTable;
    if Holding(s.use) == {} {
      forall p | 0 <= p < |s.use| ensures p in s.freelist <==> LeavesOn(s, p) == {} && !IsTable(s, p) {
        NoneLost(s, p);
      }
    }
  }

  // The pages below page i.
  ghost function Below(pages: map<nat, View>, i: nat): map<nat, View> {
    map v | v in pages && v < i :: pages[v]
  }

  // A fork that has got as far as page i.
  ghost function Partial(a: map<Pid, Image>, parent: Pid, child: Pid, i: nat): map<Pid, Image>
    requires parent in a && child in a
  {
    a[child := Image(a[child].sz, Below(a[parent].pages, i))]
  }

  lemma PartialEnds(a: map<Pid, Image>, parent: Pid, child: Pid, n: nat)
    requires parent in a && child in a && a[child].pages == map[] && forall v :: v in a[parent].pages ==> v < n
    ensures Partial(a, parent, child, 0) == a
    ensures Partial(a, parent, child, n) == a[child := Image(a[child].sz, a[parent].pages)]
  {
    assert Below(a[parent].pages, 0) == map[] && Below(a[parent].pages, n) == a[parent].pages;
  }

  lemma PartialMore(a: map<Pid, Image>, parent: Pid, child: Pid, i: nat)
    requires parent in a && child in a && parent != child && a[child].pages == map[]
    requires forall v :: v <= i ==> v in a[parent].pages
    ensures var b := Partial(a, parent, child, i);
      && parent in b && child in b && b[parent] == a[parent] && i !in b[child].pages
      && (forall v :: v < i ==> v in b[child].pages)
      && Partial(a, parent, child, i + 1) == b[child := WithPage(b[child], i, b[parent].pages[i])]
      && a == b[child := Without(b[child], 0, i)]
  {
    var b := Partial(a, parent, child, i);
    assert Below(a[parent].pages, i + 1) == Below(a[parent].pages, i)[i := a[parent].pages[i]];
    assert Without(b[child], 0, i).pages == map[];
  }

  lemma PagesOf(s: Vm, pid: Pid)
    requires Sized(s) && LeafInv(s)
    ensures pid in Abs(s) <==> pid in s.spaces
    ensures pid in s.spaces ==>
      Abs(s)[pid].pages.Keys == s.spaces[pid].leaves.Keys && Abs(s)[pid].sz == s.spaces[pid].sz
  {
    if pid in s.spaces {
      AbsAt(s, pid);
    }
  }

  lemma RootIn(s: Vm, pid: Pid)
    requires PathInv(s) && pid in s.spaces
    ensures Root in s.spaces[pid].nodes
  {
  }

  lemma SingleCount(s: Vm, p: nat)
    requires Sized(s) && CountInv(s) && p < |s.use| && s.use[p].Table?
    ensures s.refs[p] == 1
  {
  }

  const ZeroView: View := View(Filled(0), true, true, false, true)

  // New pages lo..hi of zeroes.
  ghost function WithZeroes(im: Image, lo: nat, hi: nat): Image {
    Image(im.sz, im.pages + Zeroes(lo, hi))
  }

  ghost function Zeroes(lo: nat, hi: nat): (m: map<nat, View>)
    ensures forall v :: v in m <==> lo <= v < hi
    ensures forall v :: v in m ==> m[v] == ZeroView
    decreases hi
  {
    if hi <= lo then map[] else Zeroes(lo, hi - 1)[hi - 1 := ZeroView]
  }

  /** sbrk on a process that owns its pages. */
  ghost function Resized(im: Image, n: int): Image {
    if im.sz + n < 0 then im
    else if n >= 0 then WithZeroes(im, Pages(im.sz), Pages(im.sz + n)).(sz := im.sz + n)
    else Without(im, Pages(im.sz + n), Pages(im.sz)).(sz := im.sz + n)
  }

  lemma SbrkIs(im: Image, n: int)
    ensures n == 0 ==> Resized(im, n) == im
    ensures im.sz + n < 0 ==> Resized(im, n) == im && Without(im, Pages(im.sz), Pages(im.sz)) == im
  {
    assert WithZeroes(im, Pages(im.sz), Pages(im.sz)).pages == im.pages;
    WithoutNone(im, Pages(im.sz));
  }

  lemma PagesGrow(oldsz: nat, newsz: nat)
    requires oldsz <= newsz
    ensures Pages(oldsz) <= Pages(newsz)
  {
  }

  lemma ZeroesNone(a: map<Pid, Image>, pid: Pid, lo: nat)
    requires pid in a
    ensures a[pid := WithZeroes(a[pid], lo, lo)] == a
  {
    assert WithZeroes(a[pid], lo, lo).pages == a[pid].pages;
  }

  lemma ZeroesMore(a: map<Pid, Image>, pid: Pid, lo: nat, i: nat)
    requires pid in a && lo <= i && forall v :: v in a[pid].pages ==> v < lo
    ensures var b := a[pid := WithZeroes(a[pid], lo, i)];
      && pid in b && i !in b[pid].pages && (forall v :: lo <= v < i ==> v in b[pid].pages)
      && a[pid := WithZeroes(a[pid], lo, i + 1)] == b[pid := WithPage(b[pid], i, ZeroView)]
      && a == b[pid := Without(b[pid], lo, i)]
  {
    var b := a[pid := WithZeroes(a[pid], lo, i)];
    assert WithZeroes(a[pid], lo, i + 1).pages == WithPage(b[pid], i, ZeroView).pages;
    assert Without(b[pid], lo, i).pages == a[pid].pages;
  }

  lemma HeldCount(s: Vm, p: nat)
    requires Sized(s) && CountInv(s) && p < |s.use| && s.use[p] == Held
    ensures s.refs[p] == 1
  {
  }

  // The image with `bytes` in place of what was at va and on, on those pages it has.
  ghost function Overlay(im: Image, va: nat, bytes: seq<Byte>): Image {
    Image(im.sz, map v | v in im.pages :: im.pages[v].(bytes := OverlayBytes(im.pages[v].bytes, v * PGSIZE, va, bytes)))
  }

  ghost function OverlayBytes(page: Page, base: nat, va: nat, bytes: seq<Byte>): Page {
    seq(PGSIZE, o requires 0 <= o < PGSIZE => if va <= base + o < va + |bytes| then bytes[base + o - va] else page[o])
  }

  // Bytes that stay within one page change that page.
  lemma OverlayPage(im: Image, va: nat, chunk: seq<Byte>)
    requires va / PGSIZE in im.pages && va % PGSIZE + |chunk| <= PGSIZE
    ensures var page := im.pages[va / PGSIZE].bytes;
      Overlay(im, va, chunk) ==
      PutBytes(im, va / PGSIZE, page[..va % PGSIZE] + chunk + page[va % PGSIZE + |chunk|..])
  {
    var v, off := va / PGSIZE, va % PGSIZE;
    var page := im.pages[v].bytes;
    var patched: Page := page[..off] + chunk + page[off + |chunk|..];
    assert OverlayBytes(page, v * PGSIZE, va, chunk) == patched;
    forall u | u in im.pages && u != v
      ensures OverlayBytes(im.pages[u].bytes, u * PGSIZE, va, chunk) == im.pages[u].bytes
    {
      assert u < v ==> u * PGSIZE + PGSIZE <= v * PGSIZE;
      assert u > v ==> v * PGSIZE + PGSIZE <= u * PGSIZE;
    }
    assert Overlay(im, va, chunk).pages == PutBytes(im, v, patched).pages;
  }

  lemma OverlayNone(a: map<Pid, Image>, pid: Pid, va: nat)
    requires pid in a
    ensures a[pid := Overlay(a[pid], va, [])] == a
  {
    forall v | v in a[pid].pages ensures OverlayBytes(a[pid].pages[v].bytes, v * PGSIZE, va, []) ==
      a[pid].pages[v].bytes
    {
    }
    assert Overlay(a[pid], va, []).pages == a[pid].pages;
  }

  lemma OverlayTwice(im: Image, va: nat, p: seq<Byte>, q: seq<Byte>)
    ensures Overlay(Overlay(im, va, p), va + |p|, q) == Overlay(im, va, p + q)
  {
    forall v | v in im.pages
      ensures OverlayBytes(OverlayBytes(im.pages[v].bytes, v * PGSIZE, va, p), v * PGSIZE, va + |p|, q)
           == OverlayBytes(im.pages[v].bytes, v * PGSIZE, va, p + q)
    {
    }
    assert Overlay(Overlay(im, va, p), va + |p|, q).pages == Overlay(im, va, p + q).pages;
  }

  lemma OverlayMore(a: map<Pid, Image>, pid: Pid, va: nat, src: seq<Byte>, done: nat, n: nat)
    requires pid in a && done + n <= |src|
    ensures var b := a[pid := Overlay(a[pid], va, src[..done])];
      && (forall x :: CanWrite(b[pid], x) <==> CanWrite(a[pid], x))
      && b[pid := Overlay(b[pid], va + done, src[done..done + n])] == a[pid := Overlay(a[pid], va, src[..done + n])]
  {
    OverlayTwice(a[pid], va, src[..done], src[done..done + n]);
    assert src[..done] + src[done..done + n] == src[..done + n];
  }

  predicate CanRead(im: Image, va: nat) {
    va < MAXVA && va / PGSIZE in im.pages && im.pages[va / PGSIZE].u
  }

  function ByteAt(im: Image, va: nat): Byte
    requires va / PGSIZE in im.pages
  {
    im.pages[va / PGSIZE].bytes[va % PGSIZE]
  }

  // Bytes of one page the process has.
  lemma ReadsPage(im: Image, va: nat, n: nat)
    requires va % PGSIZE + n <= PGSIZE && CanRead(im, va)
    ensures forall x :: va <= x < va + n ==>
      CanRead(im, x) && ByteAt(im, x) == im.pages[va / PGSIZE].bytes[va % PGSIZE + (x - va)]
  {
    forall x | va <= x < va + n ensures x / PGSIZE == va / PGSIZE && x % PGSIZE == va % PGSIZE + (x - va) && x < MAXVA {
    }
  }

  // `bytes` is what the process has at va and on.
  ghost predicate Holds(im: Image, va: nat, bytes: seq<Byte>) {
    forall x :: va <= x < va + |bytes| ==> CanRead(im, x) && ByteAt(im, x) == bytes[x - va]
  }

  lemma HoldsNothing(im: Image, va: nat)
    ensures Holds(im, va, [])
  {
  }

  lemma HoldsMore(im: Image, va: nat, bytes: seq<Byte>, n: nat)
    requires Holds(im, va, bytes) && CanRead(im, va + |bytes|) && (va + |bytes|) % PGSIZE + n <= PGSIZE
    ensures var x := va + |bytes|;
      Holds(im, va, bytes + im.pages[x / PGSIZE].bytes[x % PGSIZE..x % PGSIZE + n])
  {
    ReadsPage(im, va + |bytes|, n);
  }

  // ---- the simple machine

  datatype Op =
    | Fork(pid: Pid, child: Pid)
    | Exit(pid: Pid)
    | Sbrk(pid: Pid, n: int)
    | Store(pid: Pid, va: nat, b: Byte)
    | Copyout(pid: Pid, va: nat, bytes: seq<Byte>)

  datatype Outcome =
    | Done
    | Ignored            // no such process, or the child's number is taken
    | Failed             // out of memory, reported to the caller
    | Denied(done: nat)  // stopped after `done` bytes at a page the process may not write
    | Panicked(done: nat)

  /** One operation where every process owns its pages. */
  ghost function EagerStep(a: map<Pid, Image>, op: Op, out: Outcome): map<Pid, Image> {
    if op.pid !in a || out.Ignored? || out.Failed? then a
    else match op
      case Fork(parent, child) => a[child := a[parent]]
      case Exit(pid) => a - {pid}
      case Sbrk(pid, n) => a[pid := Resized(a[pid], n)]
      case Store(pid, va, b) => if out.Done? then a[pid := Overlay(a[pid], va, [b])] else a
      case Copyout(pid, va, bytes) =>
        var done := if out.Denied? || out.Panicked? then out.done else |bytes|;
        if done <= |bytes| then a[pid := Overlay(a[pid], va, bytes[..done])] else a
  }

  // The outcome is one the simple machine allows: refused exactly where the process may not write.
  ghost predicate Agrees(a: map<Pid, Image>, op: Op, out: Outcome) {
    && (out.Ignored? <==> op.pid !in a || (op.Fork? && op.child in a))
    && (op.pid in a && op.Store? ==> (out.Denied? <==> !CanWrite(a[op.pid], op.va)))
    && (op.pid in a && op.Copyout? && (out.Denied? || out.Panicked?) ==>
       out.done < |op.bytes| && (out.Denied? <==> !CanWrite(a[op.pid], RoundDown(op.va + out.done))))
    && (out.Denied? || out.Panicked? ==> op.Store? || (op.Copyout? && out.done <= |op.bytes|))
  }

  ghost predicate Eager(a: map<Pid, Image>, script: seq<Op>, log: seq<Outcome>)
    requires |script| == |log|
  {
    script == [] || (
      var n := |log| - 1;
      Eager(a, script[..n], log[..n]) && Agrees(EagerRun(a, script[..n], log[..n]), script[n], log[n]))
  }

  ghost function EagerRun(a: map<Pid, Image>, script: seq<Op>, log: seq<Outcome>): map<Pid, Image>
    requires |script| == |log|
  {
    if script == [] then a
    else
      var n := |log| - 1;
      EagerStep(EagerRun(a, script[..n], log[..n]), script[n], log[n])
  }

  // Every process has exactly the pages its size says.
  ghost predicate Dense(a: map<Pid, Image>) {
    forall pid :: pid in a ==> forall v :: v in a[pid].pages <==> v < Pages(a[pid].sz)
  }

  lemma DenseAt(s: Vm, pid: Pid)
    requires Sized(s) && LeafInv(s) && Dense(Abs(s))
    ensures pid in s.spaces ==> forall v :: v in s.spaces[pid].leaves <==> v < Pages(s.spaces[pid].sz)
  {
    PagesOf(s, pid);
  }

  lemma SbrkDense(a: map<Pid, Image>, pid: Pid, n: int)
    requires Dense(a) && pid in a
    ensures Dense(a[pid := Resized(a[pid], n)])
  {
    var im := a[pid];
    if im.sz + n >= 0 {
      if n >= 0 {
        PagesGrow(im.sz, im.sz + n);
      } else {
        PagesGrow(im.sz + n, im.sz);
      }
    }
  }

  lemma OverlayDense(a: map<Pid, Image>, pid: Pid, va: nat, bytes: seq<Byte>)
    requires Dense(a) && pid in a
    ensures Dense(a[pid := Overlay(a[pid], va, bytes)])
  {
  }

  lemma FreshKeeps(s: Vm)
    requires Sized(s) && s.spaces == map[] && |s.freelist| == |s.use|
    requires forall q :: 0 <= q < |s.use| ==> s.use[q] == Free
    requires forall k :: 0 <= k < |s.freelist| ==> s.freelist[k] == |s.use| - 1 - k
    ensures Inv(s)
  {
    forall p | 0 <= p < |s.use| && s.use[p] == Free ensures p in s.freelist {
      assert s.freelist[|s.use| - 1 - p] == p;
    }
  }

  // Growing takes the pages and the tables above them that are not there yet.
  ghost function GrowNeeds(nodes: set<Node>, oldsz: nat, newsz: nat): nat
    requires oldsz <= newsz
  {
    PagesGrow(oldsz, newsz);
    Pages(newsz) - Pages(oldsz) + Missing(nodes, Pages(oldsz), Pages(newsz))
  }

  // There is not the memory for op.
  ghost predicate Starved(s: Vm, op: Op) {
    && op.pid in s.spaces
    && match op
       case Fork(parent, child) => child !in s.spaces && |s.freelist| < ForkNeeds(Pages(s.spaces[parent].sz))
       case Sbrk(pid, n) => n > 0 && |s.freelist| < GrowNeeds(s.spaces[pid].nodes.Keys, s.spaces[pid].sz,
         s.spaces[pid].sz + n)
       case _ => false
  }

  // A store or copyout breaks off for want of memory exactly where there is no room.
  ghost predicate Stops(s: Vm, op: Op, out: Outcome, t: Vm) {
    match op
    case Store(pid, va, b) => out.Panicked? <==> NoRoom(s, pid, va)
    case Copyout(pid, va, bytes) =>
      out.Panicked? <==> (out.Panicked? || out.Denied?) && NoRoom(t, pid, RoundDown(va + out.done))
    case _ => !out.Panicked?
  }

  // The states a run went through: in each the eager machine's images, and an operation fails exactly where memory is
  // short.
  ghost predicate Follows(a: map<Pid, Image>, script: seq<Op>, log: seq<Outcome>, states: seq<Vm>) {
    && |script| == |log| && |states| == |log| + 1
    && (forall k :: 0 <= k <= |log| ==> Inv(states[k]) && Abs(states[k]) == EagerRun(a, script[..k], log[..k]))
    && forall k :: 0 <= k < |log| ==>
      (log[k].Failed? <==> Starved(states[k], script[k])) && Stops(states[k], script[k], log[k], states[k + 1])
  }

  lemma FollowsNone(s: Vm)
    requires Inv(s)
    ensures Follows(Abs(s), [], [], [s])
  {
  }

  lemma EagerMore(a: map<Pid, Image>, script: seq<Op>, log: seq<Outcome>, op: Op, out: Outcome)
    requires |script| == |log|
    ensures EagerRun(a, script + [op], log + [out]) == EagerStep(EagerRun(a, script, log), op, out)
  {
    var n := |log|;
    assert (script + [op])[..n] == script && (log + [out])[..n] == log;
  }

  lemma FollowsMore(a: map<Pid, Image>, script: seq<Op>, log: seq<Outcome>, states: seq<Vm>, op: Op, out: Outcome,
                    t: Vm)
    requires Follows(a, script, log, states) && Inv(t) && Abs(t) == EagerStep(Abs(states[|log|]), op, out)
    requires (out.Failed? <==> Starved(states[|log|], op)) && Stops(states[|log|], op, out, t)
    ensures Follows(a, script + [op], log + [out], states + [t])
  {
    hide FreeInv, TableInv, CountInv, WriteInv, PathInv, LeafInv, Abs, EagerStep, Starved, EagerRun, Stops;
    var n := |log|;
    assert script[..n] == script && log[..n] == log;
    EagerMore(a, script, log, op, out);
    assert (script + [op])[..n + 1] == script + [op] && (log + [out])[..n + 1] == log + [out];
    forall k | 0 <= k <= n ensures (script + [op])[..k] == script[..k] && (log + [out])[..k] == log[..k] {
    }
  }

  lemma ForkTakes(n: nat)
    ensures ForkNeeds(n) == 4 + Missing(BARE, 0, n)
  {
    TablesFor(n);
  }

  class Kernel {
    var freelist: seq<nat>
    var refs: seq<nat>
    var mem: seq<Page>
    var spaces: map<Pid, Space>
    ghost var use: seq<Use>

    ghost function State(): Vm
      reads this
    {
      Vm(freelist, refs, mem, spaces, use)
    }

    ghost predicate Valid()
      reads this
    {
      Inv(State())
    }

    /** kinit: freerange hands every page to kfree, whose count of zero puts it on the list. */
    constructor (npages: nat)
      ensures Valid() && spaces == map[] && |use| == npages && |freelist| == npages && Holding(use) == {}
    {
      freelist := [];
      refs := seq(npages, _ => 0);
      mem := seq(npages, _ => Filled(0));
      spaces := map[];
      use := seq(npages, _ => Free);
      new;
      var p := 0;
      while p < npages
        invariant 0 <= p <= npages && |freelist| == p
        invariant |refs| == |mem| == |use| == npages && spaces == map[]
        invariant forall q :: 0 <= q < npages ==> refs[q] == 0 && use[q] == Free
        invariant forall k :: 0 <= k < p ==> freelist[k] == p - 1 - k
      {
        Kfree(p);
        p := p + 1;
      }
      FreshKeeps(State());
    }

    /** kalloc. */
    method Kalloc() returns (r: Option<nat>)
      requires Valid()
      modifies this`freelist, this`refs, this`mem, this`use
      ensures Valid() && Abs(State()) == Abs(old(State()))
      ensures r.None? <==> old(freelist) == []
      ensures r.None? ==> State() == old(State())
      ensures r.Some? ==>
        r.value == old(freelist)[0] && freelist == old(freelist)[1..] && State() == Alloc(old(State()))
      ensures r.Some? ==> r.value < |use| && use[r.value] == Held && old(use)[r.value] == Free
      ensures r.Some? ==> Holding(use) == old(Holding(use)) + {r.value} && r.value !in old(Holding(use))
      ensures |use| == |old(use)| && |refs| == |old(refs)|
    {
      if freelist == [] {
        return None;
      }
      var p := freelist[0];
      AllocKeeps(State());
      HoldingWith(use, p, Held);
      freelist := freelist[1..];
      refs := refs[p := 1];
      mem := mem[p := Filled(5)];
      use := use[p := Held];
      return Some(p);
    }

    /** kfree; the caller accounts for the use of the page. */
    method Kfree(p: nat)
      requires p < |refs| == |mem|
      modifies this`freelist, this`refs, this`mem
      ensures old(refs)[p] > 1 ==>
        refs == old(refs)[p := old(refs)[p] - 1] && freelist == old(freelist) && mem == old(mem)
      ensures old(refs)[p] <= 1 ==>
        refs == old(refs) && freelist == [p] + old(freelist) && mem == old(mem)[p := Filled(1)]
    {
      if refs[p] > 1 {
        refs := refs[p := refs[p] - 1];
        return;
      }
      mem := mem[p := Filled(1)];
      freelist := [p] + freelist;
    }

    /** walk: `false` is a null entry pointer.  Only with `alloc` are missing tables made. */
    method Walk(pid: Pid, v: nat, alloc: bool) returns (ok: bool)
      requires Valid() && pid in spaces
      modifies this`freelist, this`refs, this`mem, this`spaces, this`use
      ensures Valid() && Abs(State()) == Abs(old(State())) && Kept(old(State()), State(), pid)
      ensures ok <==> MidOf(v) in spaces[pid].nodes && LowOf(v) in spaces[pid].nodes
      ensures !alloc || old(MidOf(v) in spaces[pid].nodes && LowOf(v) in spaces[pid].nodes) ==> State() == old(State())
      ensures alloc && !ok ==> freelist == []
      ensures alloc ==> (ok <==> |old(freelist)| >= Fresh(old(spaces[pid].nodes.Keys), v))
      ensures ok ==> Grown(old(State()), State(), pid, v, 0)
      ensures Holding(use) == old(Holding(use))
    {
      hide FreeInv, TableInv, LeafInv, CountInv, WriteInv, PathInv, Abs, Holding;
      var level := 2;
      while level > 0
        invariant 0 <= level <= 2
        invariant Valid() && pid in spaces && Abs(State()) == Abs(old(State())) && Kept(old(State()), State(), pid)
        invariant Holding(use) == old(Holding(use))
        invariant spaces[pid].nodes.Keys == old(spaces[pid].nodes.Keys)
          + (if level < 2 then {MidOf(v)} else {}) + (if level < 1 then {LowOf(v)} else {})
        invariant |freelist| == |old(freelist)| - (if level < 2 && MidOf(v) !in old(spaces[pid].nodes.Keys) then 1
          else 0)
          - (if level < 1 && LowOf(v) !in old(spaces[pid].nodes.Keys) then 1 else 0)
        invariant level < 2 ==> MidOf(v) in spaces[pid].nodes
        invariant level < 1 ==> LowOf(v) in spaces[pid].nodes
        invariant !alloc || old(MidOf(v) in spaces[pid].nodes && LowOf(v) in spaces[pid].nodes) ==>
          State() == old(State())
      {
        if ChildAt(level, v) !in spaces[pid].nodes {
          if !alloc {
            return false;
          }
          ok := GrowTable(pid, ChildAt(level, v));
          if !ok {
            return;
          }
        }
        level := level - 1;
      }
      ok := true;
    }

    method GrowTable(pid: Pid, node: Node) returns (ok: bool)
      requires Valid() && pid in spaces && node !in spaces[pid].nodes
      modifies this`freelist, this`refs, this`mem, this`spaces, this`use
      ensures Valid() && Abs(State()) == Abs(old(State())) && Kept(old(State()), State(), pid)
      ensures ok <==> old(freelist) != []
      ensures !ok ==> State() == old(State())
      ensures ok ==> spaces[pid].nodes.Keys == old(spaces)[pid].nodes.Keys + {node} && |freelist| == |old(freelist)| - 1
      ensures Holding(use) == old(Holding(use))
    {
      hide FreeInv, TableInv, LeafInv, CountInv, WriteInv, PathInv, Abs, Kept, Holding;
      GrowKept(State(), pid, node);
      var r := Kalloc();
      if r.None? {
        return false;
      }
      var p := r.value;
      ghost var s := State();
      HangKeeps(s, pid, node, p);
      mem := mem[p := Filled(0)];
      spaces := spaces[pid := spaces[pid].(nodes := spaces[pid].nodes[node := p])];
      HoldingWith(use, p, Table(pid, node));
      use := use[p := Table(pid, node)];
      assert State() == Hang(s, pid, node, p);
      return true;
    }

    /**
     mappages of one page: walk to the entry, making tables on the way, and set
     it.  `mid` is the state the walk left; the count and use of the page are
     the caller's to settle.
     */
    method MapPages(pid: Pid, v: nat, pte: Pte) returns (r: Mapping, ghost mid: Vm)
      requires Valid() && pid in spaces
      modifies this`freelist, this`refs, this`mem, this`spaces, this`use
      ensures Inv(mid) && Abs(mid) == Abs(old(State())) && Kept(old(State()), mid, pid) && pid in mid.spaces
      ensures r.Mapped? ==> v !in mid.spaces[pid].leaves
      ensures r.Mapped? ==> MidOf(v) in mid.spaces[pid].nodes && LowOf(v) in mid.spaces[pid].nodes
      ensures r.Mapped? ==> State() == mid.(spaces := mid.spaces[pid := PutLeaf(mid.spaces[pid], v, pte)])
      ensures !r.Mapped? ==> State() == mid
      ensures r.NoMemory? ==> freelist == []
      ensures r.Remap? ==> old(v in spaces[pid].leaves)
      ensures old(MidOf(v) in spaces[pid].nodes && LowOf(v) in spaces[pid].nodes) ==>
        !r.NoMemory? && mid == old(State())
      ensures r.NoMemory? <==> |old(freelist)| < Fresh(old(spaces[pid].nodes.Keys), v)
      ensures !r.NoMemory? ==> Grown(old(State()), State(), pid, v, 0)
      ensures Holding(use) == Holding(mid.use) == old(Holding(use))
    {
      hide FreeInv, TableInv, LeafInv, CountInv, WriteInv, PathInv, Abs, Kept, Holding;
      KeptHas(State(), pid);
      var ok := Walk(pid, v, true);
      mid := State();
      KeptLeaves(old(State()), mid, pid);
      if !ok {
        return NoMemory, mid;
      }
      if v in spaces[pid].leaves {
        return Remap, mid;
      }
      spaces := spaces[pid := PutLeaf(spaces[pid], v, pte)];
      return Mapped, mid;
    }

    /** uvmunmap of one page with do_free; `false` is a panic, for a page that is not mapped. */
    method Unmap(pid: Pid, v: nat) returns (ok: bool)
      requires Valid() && pid in spaces
      modifies this`freelist, this`refs, this`mem, this`spaces, this`use
      ensures Valid() && pid in spaces && ok == (v in old(spaces)[pid].leaves)
      ensures !ok ==> State() == old(State())
      ensures ok ==> State() == Leave(old(State()), pid, v)
      ensures ok ==>
        Abs(State()) == Abs(old(State()))[pid := Image(old(spaces)[pid].sz, Abs(old(State()))[pid].pages - {v})]
      ensures Holding(use) == old(Holding(use))
      ensures SameBut(old(State()), State(), pid, v, v + 1)
    {
      hide FreeInv, TableInv, LeafInv, CountInv, WriteInv, PathInv, Abs, Kept, Holding;
      if v !in spaces[pid].leaves {
        return false;
      }
      ghost var s := State();
      LeafMapped(s, pid, v);
      LeaveKeeps(s, pid, v);
      LeavePlaces(s, pid, v);
      var p := spaces[pid].leaves[v].ppn;
      HoldingWith(use, p, Data(use[p].mappers - {(pid, v)}));
      HoldingWith(use, p, Free);
      if refs[p] > 1 {
        use := use[p := Data(use[p].mappers - {(pid, v)})];
      } else {
        use := use[p := Free];
      }
      Kfree(p);
      spaces := spaces[pid := CutLeaf(spaces[pid], v)];
      assert State() == Leave(s, pid, v);
      return true;
    }

    /**
     cowalloc: make the page of va writable for pid, copying it if others map
     it too.  No process sees a difference, and it is refused exactly when the
     process may not write there.
     */
    method Cowalloc(pid: Pid, va: nat) returns (r: Fault)
      requires Valid() && pid in spaces
      modifies this`freelist, this`refs, this`mem, this`spaces, this`use
      ensures Valid() && Abs(State()) == Abs(old(State()))
      ensures r.Refused? <==> !CanWrite(Abs(old(State()))[pid], va)
      ensures r.Ready? ==> pid in spaces && va / PGSIZE in spaces[pid].leaves && spaces[pid].leaves[va / PGSIZE].w
      ensures r.OutOfMemory? <==> NoRoom(old(State()), pid, va)
      ensures !r.Ready? ==> State() == old(State())
      ensures Holding(use) == old(Holding(use))
    {
      hide FreeInv, TableInv, CountInv, WriteInv, PathInv, Kept, LeafInv, Holding;
      SeenAt(State(), pid);
      if va >= MAXVA {
        return Refused;
      }
      var v := va / PGSIZE;
      if v !in spaces[pid].leaves || !spaces[pid].leaves[v].u {
        return Refused;
      }
      var pte := spaces[pid].leaves[v];
      if !pte.c && !pte.w {
        return Refused;
      }
      if pte.w || !pte.c {
        HasRoom(State(), pid, va);
        return Ready;
      }
      LeafMapped(State(), pid, v);
      Counted(State(), pte.ppn);
      if refs[pte.ppn] > 1 {
        r := CopyPage(pid, v);
        return;
      } else if refs[pte.ppn] == 1 {
        var own := pte.(w := true, c := false);
        ReflagKeeps(State(), pid, v, own);
        spaces := spaces[pid := PutLeaf(spaces[pid], v, own)];
        return Ready;
      }
      return Refused;
    }

    /** The copying branch of cowalloc. */
    method CopyPage(pid: Pid, v: nat) returns (r: Fault)
      requires Valid() && pid in spaces && v in spaces[pid].leaves && Writable(spaces[pid].leaves[v])
      modifies this`freelist, this`refs, this`mem, this`spaces, this`use
      ensures Valid() && Abs(State()) == Abs(old(State()))
      ensures r.Ready? ==> pid in spaces && v in spaces[pid].leaves && spaces[pid].leaves[v].w
      ensures !r.Ready? ==> r.OutOfMemory? && State() == old(State())
      ensures r.Ready? <==> old(freelist) != []
      ensures Holding(use) == old(Holding(use))
    {
      hide FreeInv, TableInv, LeafInv, CountInv, WriteInv, PathInv, Abs, Kept, Holding;
      LeafMapped(State(), pid, v);
      PathOf(State(), pid, v);
      var pte := spaces[pid].leaves[v];
      var copy := Kalloc();
      if copy.None? {
        return OutOfMemory;
      }
      var q := copy.value;
      PokeHeldKeeps(State(), q, mem[pte.ppn]);
      mem := mem[q := mem[pte.ppn]];
      ghost var s := State();
      CopyKeeps(s, pid, v, pte, q);
      var unmapped := Unmap(pid, v);
      ghost var t := State();
      var mapped, mid := MapPages(pid, v, Own(pte, q));
      HoldingWith(use, q, Data({(pid, v)}));
      use := use[q := Data({(pid, v)})];
      assert mid == t && mapped.Mapped?;
      assert t.use[q] == Held && Mappers(Held) + {(pid, v)} == {(pid, v)};
      assert State() == Enter(t, pid, v, Own(pte, q));
      return Ready;
    }

    /** uvmunmap of pages lo..hi with do_free, all of them mapped. */
    method UnmapRange(pid: Pid, lo: nat, hi: nat)
      requires Valid() && pid in spaces && lo <= hi && forall v :: lo <= v < hi ==> v in spaces[pid].leaves
      modifies this`freelist, this`refs, this`mem, this`spaces, this`use
      ensures Valid()
      ensures Abs(State()) == Abs(old(State()))[pid := Without(Abs(old(State()))[pid], lo, hi)]
      ensures Holding(use) == old(Holding(use))
      ensures SameBut(old(State()), State(), pid, lo, hi)
    {
      hide FreeInv, TableInv, LeafInv, CountInv, WriteInv, PathInv, Abs, Kept, Without, Leave, Seen, Holding;
      ghost var a := Abs(State());
      PagesOf(State(), pid);
      WithoutNone(a[pid], lo);
      assert a[pid := a[pid]] == a;
      var i := lo;
      while i < hi
        invariant lo <= i <= hi && Valid() && pid in spaces && Abs(State()) == a[pid := Without(a[pid], lo, i)]
        invariant SameBut(old(State()), State(), pid, lo, i)
        invariant Holding(use) == old(Holding(use))
      {
        PagesOf(State(), pid);
        WithoutMore(a[pid], lo, i);
        ghost var s := State();
        var ok := Unmap(pid, i);
        SameTwice(old(State()), s, State(), pid, lo, i, i + 1);
        i := i + 1;
      }
    }

    /** One round of uvmcopy: write-protect the parent's page and map it in the child as well. */
    method SharePage(parent: Pid, child: Pid, v: nat) returns (ok: bool)
      requires Valid() && parent in spaces && child in spaces && parent != child
      requires v in spaces[parent].leaves && v !in spaces[child].leaves
      modifies this`freelist, this`refs, this`mem, this`spaces, this`use
      ensures Valid()
      ensures var a := Abs(old(State()));
        Abs(State()) == if ok then a[child := WithPage(a[child], v, a[parent].pages[v])] else a
      ensures !ok ==> freelist == []
      ensures ok <==> |old(freelist)| >= Fresh(old(spaces[child].nodes.Keys), v)
      ensures ok ==> Grown(old(State()), State(), child, v, 0)
      ensures Holding(use) == old(Holding(use))
      ensures SameBut(old(State()), State(), child, v, v + 1)
    {
      hide FreeInv, TableInv, LeafInv, CountInv, WriteInv, PathInv, Abs, Kept, Seen, Holding;
      Protect(parent, v);
      ghost var s := State();
      ok := MapShared(parent, child, v);
      SameTwice(old(State()), s, State(), child, v, v, v + 1);
    }

    method MapShared(parent: Pid, child: Pid, v: nat) returns (ok: bool)
      requires Valid() && parent in spaces && child in spaces && parent != child
      requires v in spaces[parent].leaves && v !in spaces[child].leaves && !spaces[parent].leaves[v].w
      modifies this`freelist, this`refs, this`mem, this`spaces, this`use
      ensures Valid()
      ensures var a := Abs(old(State()));
        && parent in a && child in a && v in a[parent].pages
        && Abs(State()) == if ok then a[child := WithPage(a[child], v, a[parent].pages[v])] else a
      ensures !ok ==> freelist == []
      ensures ok <==> |old(freelist)| >= Fresh(old(spaces[child].nodes.Keys), v)
      ensures ok ==> Grown(old(State()), State(), child, v, 0)
      ensures Holding(use) == old(Holding(use))
      ensures SameBut(old(State()), State(), child, v, v + 1)
    {
      hide FreeInv, TableInv, LeafInv, CountInv, WriteInv, PathInv, Abs, Kept, Seen, WithPage, Holding;
      ghost var s := State();
      SeenAt(s, parent);
      SeenAt(s, child);
      var pte := spaces[parent].leaves[v];
      var mapped, mid := MapPages(child, v, pte);
      SharePlaces(s, mid, parent, child, v, pte);
      if !mapped.Mapped? {
        return false;
      }
      ShareKeeps(s, mid, parent, child, v, pte);
      refs := refs[pte.ppn := refs[pte.ppn] + 1];
      HoldingWith(use, pte.ppn, Data(use[pte.ppn].mappers + {(child, v)}));
      use := use[pte.ppn := Data(use[pte.ppn].mappers + {(child, v)})];
      assert State() == Enter(mid, child, v, pte);
      return true;
    }

    method Protect(pid: Pid, v: nat)
      requires Valid() && pid in spaces && v in spaces[pid].leaves
      modifies this`spaces
      ensures Valid() && Abs(State()) == Abs(old(State()))
      ensures spaces.Keys == old(spaces).Keys && v in spaces[pid].leaves && !spaces[pid].leaves[v].w
      ensures forall q :: q in spaces && q != pid ==> spaces[q] == old(spaces)[q]
      ensures forall q, lo: nat :: SameBut(old(State()), State(), q, lo, lo)
    {
      hide FreeInv, TableInv, LeafInv, CountInv, WriteInv, PathInv, Abs, Kept, Holding;
      var pte := spaces[pid].leaves[v];
      if pte.w {
        var shared := pte.(c := true, w := false);
        LeafMapped(State(), pid, v);
        ReflagKeeps(State(), pid, v, shared);
        spaces := spaces[pid := PutLeaf(spaces[pid], v, shared)];
      }
    }

    /**
     uvmcopy of a whole parent into an empty child: afterwards the child has a
     page like each of the parent's, or, when memory ran out on the way, all
     that was done is undone.
     */
    method Uvmcopy(parent: Pid, child: Pid) returns (ok: bool)
      requires Valid() && parent in spaces && child in spaces && parent != child && spaces[child].leaves == map[]
      requires forall v :: v in spaces[parent].leaves <==> v < Pages(spaces[parent].sz)
      modifies this`freelist, this`refs, this`mem, this`spaces, this`use
      ensures Valid()
      ensures var a := Abs(old(State()));
        Abs(State()) == if ok then a[child := Image(a[child].sz, a[parent].pages)] else a
      ensures Holding(use) == old(Holding(use))
      ensures SameBut(old(State()), State(), child, 0, Pages(old(spaces)[parent].sz))
      ensures !ok ==> RolledBack(old(State()), State())
      ensures ok <==> |old(freelist)| >= Missing(old(spaces[child].nodes.Keys), 0, Pages(old(spaces)[parent].sz))
    {
      hide FreeInv, TableInv, LeafInv, CountInv, WriteInv, PathInv, Abs, Kept, Seen, Without, WithPage, Partial,
        Holding, SameBut, RolledBack, Taken, Grown, Missing, Fresh;
      ghost var a := Abs(State());
      PagesOf(State(), parent);
      PagesOf(State(), child);
      var n := Pages(spaces[parent].sz);
      PartialEnds(a, parent, child, n);
      NothingMoved(State(), child);
      NoneMapped(State(), child, 0);
      TakenNone(State(), child, 0);
      var i := 0;
      while i < n
        invariant 0 <= i <= n && Valid() && Abs(State()) == Partial(a, parent, child, i)
        invariant SameBut(old(State()), State(), child, 0, i)
        invariant Taken(old(State()), State(), child, 0, i, 0)
        invariant Holding(use) == old(Holding(use))
      {
        PartialMore(a, parent, child, i);
        PagesOf(State(), parent);
        PagesOf(State(), child);
        ghost var s := State();
        ok := SharePage(parent, child, i);
        SameTwice(old(State()), s, State(), child, 0, i, i + 1);
        if !ok {
          TakenShort(old(State()), s, child, 0, i, n, 0, 0);
          PagesOf(State(), child);
          ghost var t := State();
          UnmapRange(child, 0, i);
          PagesOf(State(), child);
          NoneMapped(State(), child, 0);
          SameChain(old(State()), t, State(), child, i, n);
          Restored(old(State()), State(), child, 0, n);
          return;
        }
        TakenMore(old(State()), s, State(), child, 0, i, 0, 0);
        i := i + 1;
      }
      TakenAll(old(State()), State(), child, 0, n, 0);
      ok := true;
    }

    /** uvmcreate. */
    method CreateSpace(pid: Pid) returns (ok: bool)
      requires Valid() && pid !in spaces
      modifies this`freelist, this`refs, this`mem, this`spaces, this`use
      ensures Valid() && ok == (old(freelist) != [])
      ensures Abs(State()) == if ok then Abs(old(State()))[pid := Image(0, map[])] else Abs(old(State()))
      ensures ok ==> pid in spaces && spaces[pid].nodes.Keys == {Root} && |freelist| == |old(freelist)| - 1
      ensures Holding(use) == old(Holding(use))
      ensures SameBut(old(State()), State(), pid, 0, 0)
    {
      hide FreeInv, TableInv, LeafInv, CountInv, WriteInv, PathInv, Abs, Kept, Holding;
      var r := Kalloc();
      if r.None? {
        NothingMoved(State(), pid);
        return false;
      }
      var p := r.value;
      ghost var s := State();
      CreateKeeps(s, pid, p);
      mem := mem[p := Filled(0)];
      spaces := spaces[pid := Space(map[Root := p], map[], 0)];
      HoldingWith(use, p, Table(pid, Root));
      use := use[p := Table(pid, Root)];
      assert State() == Create(s, pid, p);
      SameLeafPlaces(old(State()), State(), pid);
      return true;
    }

    /** freewalk: every table page goes back to the free list; `false` is the panic "freewalk: leaf". */
    method FreeTables(pid: Pid) returns (ok: bool)
      requires Valid() && pid in spaces
      modifies this`freelist, this`refs, this`mem, this`spaces, this`use
      ensures Valid() && ok == (old(spaces)[pid].leaves == map[])
      ensures Abs(State()) == if ok then Abs(old(State())) - {pid} else Abs(old(State()))
      ensures Holding(use) == old(Holding(use))
      ensures SameBut(old(State()), State(), pid, 0, 0)
    {
      hide FreeInv, TableInv, LeafInv, CountInv, WriteInv, PathInv, Abs, Kept, Holding, SameBut;
      NothingMoved(State(), pid);
      if spaces[pid].leaves != map[] {
        return false;
      }
      while spaces[pid].nodes.Keys - {Root} != {}
        invariant Valid() && pid in spaces && spaces[pid].leaves == map[] && Abs(State()) == Abs(old(State()))
        invariant SameBut(old(State()), State(), pid, 0, 0)
        invariant Holding(use) == old(Holding(use))
        decreases |spaces[pid].nodes|
      {
        var node :| node in spaces[pid].nodes.Keys - {Root};
        ghost var t := State();
        FreeTable(pid, node);
        SameTwice(old(State()), t, State(), pid, 0, 0, 0);
      }
      ghost var t := State();
      FreeRoot(pid);
      SameTwice(old(State()), t, State(), pid, 0, 0, 0);
      return true;
    }

    // The last table page, and with it the address space.
    method FreeRoot(pid: Pid)
      requires Valid() && pid in spaces && spaces[pid].leaves == map[] && spaces[pid].nodes.Keys <= {Root}
      modifies this`freelist, this`refs, this`mem, this`spaces, this`use
      ensures Valid() && Abs(State()) == Abs(old(State())) - {pid} && Holding(use) == old(Holding(use))
      ensures SameBut(old(State()), State(), pid, 0, 0)
    {
      hide FreeInv, TableInv, LeafInv, CountInv, WriteInv, PathInv, Abs, Kept, Holding;
      RootIn(State(), pid);
      ghost var s := State();
      BuryKeeps(s, pid);
      var p := spaces[pid].nodes[Root];
      TableOwned(s, pid, Root);
      SingleCount(s, p);
      Kfree(p);
      spaces := spaces - {pid};
      HoldingWith(use, p, Free);
      use := use[p := Free];
      assert State() == Bury(s, pid, p);
      SameLeafPlaces(s, State(), pid);
    }

    method FreeTable(pid: Pid, node: Node)
      requires Valid() && pid in spaces && spaces[pid].leaves == map[] && node in spaces[pid].nodes && node != Root
      modifies this`freelist, this`refs, this`mem, this`spaces, this`use
      ensures Valid() && Abs(State()) == Abs(old(State()))
      ensures pid in spaces && spaces[pid].leaves == map[] && |spaces[pid].nodes| < |old(spaces)[pid].nodes|
      ensures Holding(use) == old(Holding(use))
      ensures SameBut(old(State()), State(), pid, 0, 0)
    {
      hide FreeInv, TableInv, LeafInv, CountInv, WriteInv, PathInv, Abs, Kept, Holding;
      ghost var s := State();
      UnhangKeeps(s, pid, node);
      TableOwned(s, pid, node);
      var p := spaces[pid].nodes[node];
      SingleCount(s, p);
      Kfree(p);
      var nodes := spaces[pid].nodes - {node};
      assert spaces[pid].nodes.Keys == nodes.Keys + {node};
      spaces := spaces[pid := spaces[pid].(nodes := nodes)];
      HoldingWith(use, p, Free);
      use := use[p := Free];
      assert State() == Unhang(s, pid, node);
      SameLeafPlaces(s, State(), pid);
    }

    /** allocproc and proc_pagetable: the process's trapframe and a table with no user memory, or nothing at all. */
    method AllocProc(pid: Pid) returns (ok: bool)
      requires Valid() && pid !in spaces
      modifies this`freelist, this`refs, this`mem, this`spaces, this`use
      ensures Valid() && (ok <==> |old(freelist)| >= 4)
      ensures Abs(State()) == if ok then Abs(old(State()))[pid := Image(0, map[])] else Abs(old(State()))
      ensures ok ==> pid in spaces && spaces[pid].nodes.Keys == BARE && |freelist| == |old(freelist)| - 4
      ensures Holding(use) == old(Holding(use))
      ensures SameBut(old(State()), State(), pid, 0, 0)
    {
      hide FreeInv, TableInv, LeafInv, CountInv, WriteInv, PathInv, Abs, Kept, Holding, SameBut;
      ghost var a := Abs(State());
      PagesOf(State(), pid);
      ok := CreateSpace(pid);
      if !ok {
        return;
      }
      ghost var s1 := State();
      PagesOf(s1, pid);
      ok := Furnish(pid);
      SameTwice(old(State()), s1, State(), pid, 0, 0, 0);
      if !ok {
        ghost var s2 := State();
        PagesOf(s2, pid);
        var freed := FreeTables(pid);
        assert a[pid := Image(0, map[])] - {pid} == a;
        SameTwice(old(State()), s2, State(), pid, 0, 0, 0);
      }
    }

    method Furnish(pid: Pid) returns (ok: bool)
      requires Valid() && pid in spaces && spaces[pid].nodes.Keys == {Root}
      modifies this`freelist, this`refs, this`mem, this`spaces, this`use
      ensures Valid() && Abs(State()) == Abs(old(State())) && pid in spaces
      ensures ok <==> |old(freelist)| >= 3
      ensures ok ==> spaces[pid].nodes.Keys == BARE && |freelist| == |old(freelist)| - 3
      ensures Holding(use) == old(Holding(use)) && SameBut(old(State()), State(), pid, 0, 0)
    {
      hide FreeInv, TableInv, LeafInv, CountInv, WriteInv, PathInv, Abs, Kept, Holding, SameBut;
      Bare();
      ok := GrowTable(pid, Frame);
      ghost var s1 := State();
      KeptPlaces(old(State()), s1, pid);
      if !ok {
        return;
      }
      ok := Walk(pid, TRAMPOLINE, true);
      ghost var s2 := State();
      KeptPlaces(s1, s2, pid);
      SameTwice(old(State()), s1, s2, pid, 0, 0, 0);
      if !ok {
        return;
      }
      ok := Walk(pid, TRAPFRAME, true);
      KeptPlaces(s2, State(), pid);
      SameTwice(old(State()), s2, State(), pid, 0, 0, 0);
    }

    /** fork's memory: a table for the child, uvmcopy, and on failure everything back. */
    method Fork(parent: Pid, child: Pid) returns (ok: bool)
      requires Valid() && parent in spaces && child !in spaces
      requires forall v :: v in spaces[parent].leaves <==> v < Pages(spaces[parent].sz)
      modifies this`freelist, this`refs, this`mem, this`spaces, this`use
      ensures Valid()
      ensures Abs(State()) == if ok then Abs(old(State()))[child := Abs(old(State()))[parent]] else Abs(old(State()))
      ensures Holding(use) == old(Holding(use))
      ensures !ok ==> RolledBack(old(State()), State())
      ensures ok <==> |old(freelist)| >= ForkNeeds(Pages(old(spaces)[parent].sz))
    {
      hide FreeInv, TableInv, LeafInv, CountInv, WriteInv, PathInv, Abs, Kept, Holding, SameBut, RolledBack,
        ForkNeeds, Missing;
      ghost var a := Abs(State());
      PagesOf(State(), parent);
      PagesOf(State(), child);
      NoneMapped(State(), child, 0);
      ghost var n := Pages(spaces[parent].sz);
      ForkTakes(n);
      ok := AllocProc(child);
      ghost var s1 := State();
      if !ok {
        PagesOf(s1, child);
        NoneMapped(s1, child, 0);
        Restored(old(State()), s1, child, 0, 0);
        return;
      }
      PagesOf(State(), parent);
      PagesOf(State(), child);
      ok := Uvmcopy(parent, child);
      ghost var s2 := State();
      PagesOf(State(), parent);
      PagesOf(State(), child);
      if !ok {
        var freed := FreeTables(child);
        assert a[child := Image(0, map[])] - {child} == a;
        PagesOf(State(), child);
        NoneMapped(State(), child, 0);
        ForkUndone(old(State()), s1, s2, State(), child, n);
        return;
      }
      ResizeKeeps(State(), child, spaces[parent].sz);
      spaces := spaces[child := spaces[child].(sz := spaces[parent].sz)];
    }

    /** uvmfree when a process is gone. */
    method Exit(pid: Pid)
      requires Valid() && pid in spaces
      requires forall v :: v in spaces[pid].leaves <==> v < Pages(spaces[pid].sz)
      modifies this`freelist, this`refs, this`mem, this`spaces, this`use
      ensures Valid() && Abs(State()) == Abs(old(State())) - {pid}
      ensures Holding(use) == old(Holding(use))
    {
      hide FreeInv, TableInv, LeafInv, CountInv, WriteInv, PathInv, Abs, Kept, Seen, Holding;
      ghost var a := Abs(State());
      PagesOf(State(), pid);
      if spaces[pid].sz > 0 {
        UnmapRange(pid, 0, Pages(spaces[pid].sz));
        PagesOf(State(), pid);
        assert (a[pid := Abs(State())[pid]]) - {pid} == a - {pid};
      }
      assert spaces[pid].leaves.Keys == {};
      var freed := FreeTables(pid);
    }

    /** One round of uvmalloc: a zeroed page, readable and writable by the user, at page v. */
    method AddPage(pid: Pid, v: nat) returns (ok: bool)
      requires Valid() && pid in spaces && v !in spaces[pid].leaves
      modifies this`freelist, this`refs, this`mem, this`spaces, this`use
      ensures Valid()
      ensures var a := Abs(old(State()));
        pid in a && Abs(State()) == if ok then a[pid := WithPage(a[pid], v, ZeroView)] else a
      ensures ok <==> |old(freelist)| >= 1 + Fresh(old(spaces[pid].nodes.Keys), v)
      ensures ok ==> Grown(old(State()), State(), pid, v, 1)
      ensures Holding(use) == old(Holding(use))
      ensures SameBut(old(State()), State(), pid, v, v + 1)
    {
      hide FreeInv, TableInv, LeafInv, CountInv, WriteInv, PathInv, Abs, WithPage, Holding, SameBut;
      PagesOf(State(), pid);
      var r := Kalloc();
      if r.None? {
        NothingMoved(State(), pid);
        SameWider(State(), State(), pid, 0, 0, v, v + 1);
        return false;
      }
      var p := r.value;
      PokeHeldKeeps(State(), p, Filled(0));
      mem := mem[p := Filled(0)];
      ghost var s := State();
      var pte := Pte(p, true, true, false, true, false);
      var mapped, mid := MapPages(pid, v, pte);
      EnterPlaces(s, mid, pid, v, pte);
      SameLeafPlaces(old(State()), s, pid);
      if !mapped.Mapped? {
        UnholdKeeps(mid, p);
        HeldCount(mid, p);
        Kfree(p);
        HoldingWith(use, p, Free);
        use := use[p := Free];
        assert State() == Unhold(mid, p);
        SameLeafPlaces(mid, State(), pid);
        Through(old(State()), s, mid, State(), pid, v);
        return false;
      }
      EnterAbs(mid, pid, v, pte);
      HoldingWith(use, p, Data({(pid, v)}));
      use := use[p := Data({(pid, v)})];
      assert Mappers(Held) + {(pid, v)} == {(pid, v)};
      assert State() == Enter(mid, pid, v, pte);
      NothingMoved(State(), pid);
      Through(old(State()), s, State(), State(), pid, v);
      return true;
    }

    /** uvmalloc with PTE_W: all the pages from oldsz to newsz, or none of them. */
    method Uvmalloc(pid: Pid, oldsz: nat, newsz: nat) returns (ok: bool)
      requires Valid() && pid in spaces && oldsz <= newsz
      requires forall v :: v in spaces[pid].leaves <==> v < Pages(oldsz)
      modifies this`freelist, this`refs, this`mem, this`spaces, this`use
      ensures Valid()
      ensures var a := Abs(old(State()));
        && pid in a
        && Abs(State()) == if ok then a[pid := WithZeroes(a[pid], Pages(oldsz), Pages(newsz))] else a
      ensures Holding(use) == old(Holding(use))
      ensures !ok ==> RolledBack(old(State()), State())
      ensures ok <==> |old(freelist)| >= GrowNeeds(old(spaces[pid].nodes.Keys), oldsz, newsz)
    {
      hide FreeInv, TableInv, LeafInv, CountInv, WriteInv, PathInv, Abs, Kept, Seen, WithPage, WithZeroes, Without,
        Holding, SameBut, RolledBack, Taken, Grown, Missing, Fresh;
      ghost var a := Abs(State());
      PagesOf(State(), pid);
      var lo, hi := Pages(oldsz), Pages(newsz);
      PagesGrow(oldsz, newsz);
      ZeroesNone(a, pid, lo);
      NothingMoved(State(), pid);
      SameWider(State(), State(), pid, 0, 0, lo, lo);
      NoneMapped(State(), pid, lo);
      TakenNone(State(), pid, lo);
      var i := lo;
      while i < hi
        invariant lo <= i <= hi && Valid() && pid in spaces && Abs(State()) == a[pid := WithZeroes(a[pid], lo, i)]
        invariant Holding(use) == old(Holding(use))
        invariant SameBut(old(State()), State(), pid, lo, i)
        invariant Taken(old(State()), State(), pid, lo, i, i - lo)
      {
        ZeroesMore(a, pid, lo, i);
        PagesOf(State(), pid);
        ghost var s := State();
        ok := AddPage(pid, i);
        SameTwice(old(State()), s, State(), pid, lo, i, i + 1);
        PagesOf(State(), pid);
        if !ok {
          TakenShort(old(State()), s, pid, lo, i, hi, i - lo, 1);
          ghost var t := State();
          UnmapRange(pid, lo, i);
          PagesOf(State(), pid);
          NoneMapped(State(), pid, lo);
          SameWider(t, State(), pid, lo, i, lo, i + 1);
          SameAgain(old(State()), t, State(), pid, lo, i + 1);
          Restored(old(State()), State(), pid, lo, i + 1);
          return;
        }
        TakenMore(old(State()), s, State(), pid, lo, i, i - lo, 1);
        i := i + 1;
      }
      TakenAll(old(State()), State(), pid, lo, hi, hi - lo);
      ok := true;
    }

    /** uvmdealloc, which does nothing unless newsz < oldsz. */
    method Uvmdealloc(pid: Pid, oldsz: nat, newsz: nat) returns (sz: nat)
      requires Valid() && pid in spaces
      requires forall v :: v in spaces[pid].leaves <==> v < Pages(oldsz)
      modifies this`freelist, this`refs, this`mem, this`spaces, this`use
      ensures Valid() && sz == if newsz < oldsz then newsz else oldsz
      ensures var a := Abs(old(State())); pid in a && Abs(State()) == a[pid := Without(a[pid], Pages(sz), Pages(oldsz))]
      ensures Holding(use) == old(Holding(use))
    {
      hide FreeInv, TableInv, LeafInv, CountInv, WriteInv, PathInv, Abs, Kept, Seen, Without, Holding;
      ghost var a := Abs(State());
      PagesOf(State(), pid);
      WithoutNone(a[pid], Pages(oldsz));
      assert a[pid := a[pid]] == a;
      if newsz >= oldsz {
        return oldsz;
      }
      PagesGrow(newsz, oldsz);
      if Pages(newsz) < Pages(oldsz) {
        UnmapRange(pid, Pages(newsz), Pages(oldsz));
      }
      return newsz;
    }

    /**
     growproc: sbrk by n bytes.  The arithmetic is that of uint64: shrinking by
     more than there is wraps round to a size that is not smaller, and then
     nothing happens.
     */
    method Growproc(pid: Pid, n: int) returns (ok: bool)
      requires Valid() && pid in spaces
      requires forall v :: v in spaces[pid].leaves <==> v < Pages(spaces[pid].sz)
      modifies this`freelist, this`refs, this`mem, this`spaces, this`use
      ensures Valid()
      ensures var a := Abs(old(State()));
        pid in a && Abs(State()) == if ok then a[pid := Resized(a[pid], n)] else a
      ensures ok <==>
        n <= 0 || |old(freelist)| >= GrowNeeds(old(spaces[pid].nodes.Keys), old(spaces[pid].sz),
          old(spaces[pid].sz) + n)
      ensures Holding(use) == old(Holding(use))
      ensures !ok ==> RolledBack(old(State()), State())
    {
      hide FreeInv, TableInv, LeafInv, CountInv, WriteInv, PathInv, Abs, Kept, Seen, Without, WithZeroes, Holding,
        GrowNeeds, Missing, RolledBack;
      ghost var a := Abs(State());
      PagesOf(State(), pid);
      var oldsz := spaces[pid].sz;
      var sz := oldsz;
      if n > 0 {
        sz := oldsz + n;
        ok := Uvmalloc(pid, oldsz, sz);
        if !ok {
          return;
        }
      } else if n < 0 {
        sz := Uvmdealloc(pid, oldsz, if oldsz + n < 0 then oldsz else oldsz + n);
      }
      PagesOf(State(), pid);
      ResizeKeeps(State(), pid, sz);
      SbrkIs(a[pid], n);
      spaces := spaces[pid := spaces[pid].(sz := sz)];
      ok := true;
    }

    // A leaf that can be written through is the only one on its page.
    method Poke(pid: Pid, v: nat, bytes: Page)
      requires Valid() && pid in spaces && v in spaces[pid].leaves && spaces[pid].leaves[v].w
      modifies this`mem
      ensures Valid()
      ensures var a := Abs(old(State())); pid in a && Abs(State()) == a[pid := PutBytes(a[pid], v, bytes)]
    {
      hide FreeInv, TableInv, LeafInv, CountInv, PathInv, Abs, Kept, Seen, PutBytes, Holding;
      PagesOf(State(), pid);
      LeafMapped(State(), pid, v);
      LastMapper(State(), pid, v);
      PokeKeeps(State(), pid, v, spaces[pid].leaves[v].ppn, bytes);
      mem := mem[spaces[pid].leaves[v].ppn := bytes];
    }

    // Bytes into the page of va, through its writable leaf.
    method WriteThrough(pid: Pid, va: nat, chunk: seq<Byte>)
      requires Valid() && pid in spaces && va / PGSIZE in spaces[pid].leaves && spaces[pid].leaves[va / PGSIZE].w
      requires va % PGSIZE + |chunk| <= PGSIZE
      modifies this`mem
      ensures Valid()
      ensures var a := Abs(old(State())); pid in a && Abs(State()) == a[pid := Overlay(a[pid], va, chunk)]
    {
      hide FreeInv, TableInv, LeafInv, CountInv, WriteInv, PathInv, Abs, Kept, Overlay, PutBytes, Holding;
      SeenAt(State(), pid);
      var page := mem[spaces[pid].leaves[va / PGSIZE].ppn];
      OverlayPage(Abs(State())[pid], va, chunk);
      Poke(pid, va / PGSIZE, page[..va % PGSIZE] + chunk + page[va % PGSIZE + |chunk|..]);
    }

    /** A user store: the hardware writes through a writable leaf, or faults into usertrap and cowalloc. */
    method Store(pid: Pid, va: nat, b: Byte) returns (r: Fault)
      requires Valid() && pid in spaces
      modifies this`freelist, this`refs, this`mem, this`spaces, this`use
      ensures Valid()
      ensures var a := Abs(old(State()));
        && pid in a
        && (r.Refused? <==> !CanWrite(a[pid], va))
        && Abs(State()) == if r.Ready? then a[pid := Overlay(a[pid], va, [b])] else a
      ensures r.OutOfMemory? <==> NoRoom(old(State()), pid, va)
      ensures r.OutOfMemory? ==> State() == old(State())
      ensures Holding(use) == old(Holding(use))
    {
      hide FreeInv, TableInv, LeafInv, CountInv, WriteInv, PathInv, Abs, Kept, Overlay, PutBytes, Holding;
      ghost var a := Abs(State());
      SeenAt(State(), pid);
      var v := va / PGSIZE;
      r := Ready;
      if !(va < MAXVA && v in spaces[pid].leaves && spaces[pid].leaves[v].u && spaces[pid].leaves[v].w) {
        r := Cowalloc(pid, va);
        if !r.Ready? {
          return;
        }
      } else {
        HasRoom(State(), pid, va);
      }
      WriteThrough(pid, va, [b]);
    }

    /** One round of copyout: as many bytes as fit in the page of va. */
    method CopyoutPage(pid: Pid, va: nat, chunk: seq<Byte>) returns (r: Fault)
      requires Valid() && pid in spaces && va % PGSIZE + |chunk| <= PGSIZE
      modifies this`freelist, this`refs, this`mem, this`spaces, this`use
      ensures Valid()
      ensures var a := Abs(old(State()));
        && pid in a
        && (r.Refused? <==> !CanWrite(a[pid], RoundDown(va)))
        && Abs(State()) == if r.Ready? then a[pid := Overlay(a[pid], va, chunk)] else a
      ensures r.OutOfMemory? <==> NoRoom(old(State()), pid, RoundDown(va))
      ensures !r.Ready? ==> State() == old(State())
      ensures Holding(use) == old(Holding(use))
    {
      hide FreeInv, TableInv, LeafInv, CountInv, WriteInv, PathInv, Abs, Kept, Overlay, PutBytes, CanWrite, RoundDown,
        Holding;
      ghost var a := Abs(State());
      PagesOf(State(), pid);
      var v := va / PGSIZE;
      r := Cowalloc(pid, RoundDown(va));
      if !r.Ready? {
        return;
      }
      WriteThrough(pid, va, chunk);
    }

    /**
     copyout.  The first `done` bytes of src are at dstva as the process sees
     it and nothing else has changed; it stops short exactly at a page the
     process may not write, or cannot have for want of memory.
     */
    method Copyout(pid: Pid, dstva: nat, src: seq<Byte>) returns (r: Fault, done: nat)
      requires Valid() && pid in spaces
      modifies this`freelist, this`refs, this`mem, this`spaces, this`use
      ensures Valid() && done <= |src| && (r.Ready? ==> done == |src|)
      ensures var a := Abs(old(State()));
        && pid in a
        && Abs(State()) == a[pid := Overlay(a[pid], dstva, src[..done])]
        && (r.Refused? <==> done < |src| && !CanWrite(a[pid], RoundDown(dstva + done)))
      ensures r.OutOfMemory? <==> done < |src| && NoRoom(State(), pid, RoundDown(dstva + done))
      ensures Holding(use) == old(Holding(use))
    {
      hide FreeInv, TableInv, LeafInv, CountInv, WriteInv, PathInv, Abs, Kept, Overlay, CanWrite, RoundDown, Holding;
      ghost var a := Abs(State());
      PagesOf(State(), pid);
      OverlayNone(a, pid, dstva);
      done := 0;
      r := Ready;
      while done < |src|
        invariant done <= |src| && Valid() && pid in spaces && r.Ready?
        invariant Holding(use) == old(Holding(use))
        invariant Abs(State()) == a[pid := Overlay(a[pid], dstva, src[..done])]
      {
        var va := dstva + done;
        var n := PGSIZE - va % PGSIZE;
        if n > |src| - done {
          n := |src| - done;
        }
        OverlayMore(a, pid, dstva, src, done, n);
        r := CopyoutPage(pid, va, src[done..done + n]);
        if !r.Ready? {
          return;
        }
        PagesOf(State(), pid);
        done := done + n;
      }
    }

    /** copyin: the bytes the process has at srcva, or nothing if some of them are not its own. */
    method Copyin(pid: Pid, srcva: nat, len: nat) returns (r: Option<seq<Byte>>)
      requires Valid() && pid in spaces
      ensures pid in Abs(State())
      ensures r.Some? ==> |r.value| == len && Holds(Abs(State())[pid], srcva, r.value)
      ensures r.None? ==> exists x :: srcva <= x < srcva + len && !CanRead(Abs(State())[pid], x)
    {
      hide FreeInv, TableInv, LeafInv, CountInv, WriteInv, PathInv, Abs, Kept, Holds, Holding;
      SeenAt(State(), pid);
      ghost var im := Abs(State())[pid];
      var dst: seq<Byte> := [];
      HoldsNothing(im, srcva);
      while |dst| < len
        invariant |dst| <= len && Holds(im, srcva, dst)
        decreases len - |dst|
      {
        var va := srcva + |dst|;
        var v := va / PGSIZE;
        if va >= MAXVA || v !in spaces[pid].leaves || !spaces[pid].leaves[v].u {
          assert !CanRead(im, va);
          return None;
        }
        var n := PGSIZE - va % PGSIZE;
        if n > len - |dst| {
          n := len - |dst|;
        }
        HoldsMore(im, srcva, dst, n);
        var page := mem[spaces[pid].leaves[v].ppn];
        dst := dst + page[va % PGSIZE..va % PGSIZE + n];
      }
      return Some(dst);
    }

    /**
     Any run of these operations by any number of processes.  However pages
     were shared and copied on the way, every process sees what it would see
     had each fork copied every page at once; `log` says which operations
     found memory and which the process was refused.  An operation fails
     exactly in a state, of those in `states`, that has too few free pages.
     */
    method Run(script: seq<Op>) returns (log: seq<Outcome>, ghost states: seq<Vm>)
      requires Valid() && Dense(Abs(State()))
      modifies this
      ensures Valid() && |log| <= |script|
      ensures Eager(Abs(old(State())), script[..|log|], log)
      ensures Abs(State()) == EagerRun(Abs(old(State())), script[..|log|], log)
      ensures Follows(Abs(old(State())), script[..|log|], log, states) && states[0] == old(State())
        && states[|log|] == State()
      ensures |log| < |script| ==> log != [] && log[|log| - 1].Panicked? && freelist == []
      ensures Holding(use) == old(Holding(use))
      ensures old(Holding(use)) == {} ==>
        forall p :: 0 <= p < |use| ==> (p in freelist <==> LeavesOn(State(), p) == {} && !IsTable(State(), p))
    {
      hide FreeInv, TableInv, LeafInv, CountInv, WriteInv, PathInv, Abs, Kept, EagerStep, Agrees, Dense, Holding,
        Starved, Stops, Follows;
      ghost var a := Abs(State());
      log, states := [], [State()];
      FollowsNone(State());
      while |log| < |script|
        invariant |log| <= |script| && Valid() && Dense(Abs(State()))
        invariant Holding(use) == old(Holding(use))
        invariant Eager(a, script[..|log|], log)
        invariant Abs(State()) == EagerRun(a, script[..|log|], log)
        invariant |states| == |log| + 1 && states[0] == old(State()) && states[|log|] == State()
        invariant Follows(a, script[..|log|], log, states)
        decreases |script| - |log|
      {
        var n := |log|;
        var out := Do(script[n]);
        assert script[..n + 1][..n] == script[..n] && (log + [out])[..n] == log;
        assert script[..n + 1] == script[..n] + [script[n]];
        FollowsMore(a, script[..n], log, states, script[n], out, State());
        log := log + [out];
        states := states + [State()];
        if out.Panicked? {
          AllAccounted(State());
          return;
        }
      }
      AllAccounted(State());
    }

    method Do(op: Op) returns (out: Outcome)
      requires Valid() && Dense(Abs(State()))
      modifies this
      ensures Valid()
      ensures Agrees(Abs(old(State())), op, out)
      ensures (out.Failed? <==> Starved(old(State()), op)) && Stops(old(State()), op, out, State())
      ensures Abs(State()) == EagerStep(Abs(old(State())), op, out)
      ensures !out.Panicked? ==> Dense(Abs(State()))
      ensures out.Panicked? ==> freelist == []
      ensures Holding(use) == old(Holding(use))
    {
      hide FreeInv, TableInv, LeafInv, CountInv, WriteInv, PathInv, Abs, Kept, Overlay, Resized, CanWrite, Holding,
        GrowNeeds, ForkNeeds, RolledBack;
      ghost var a := Abs(State());
      PagesOf(State(), op.pid);
      DenseAt(State(), op.pid);
      if op.pid !in spaces {
        return Ignored;
      }
      match op
      case Fork(_, child) =>
        PagesOf(State(), child);
        if child in spaces {
          return Ignored;
        }
        var ok := Fork(op.pid, child);
        out := if ok then Done else Failed;
      case Exit(_) =>
        Exit(op.pid);
        out := Done;
      case Sbrk(_, n) =>
        var ok := Growproc(op.pid, n);
        SbrkDense(a, op.pid, n);
        out := if ok then Done else Failed;
      case Store(_, va, b) =>
        var r := Store(op.pid, va, b);
        OverlayDense(a, op.pid, va, [b]);
        out := match r case Ready => Done case Refused => Denied(0) case OutOfMemory => Panicked(0);
      case Copyout(_, va, bytes) =>
        var r, done := Copyout(op.pid, va, bytes);
        OverlayDense(a, op.pid, va, bytes[..done]);
        out := match r case Ready => Done case Refused => Denied(done) case OutOfMemory => Panicked(done);
    }
  }
}
