/**
 Physical pages, reference counts and user address spaces (kernel/kalloc.c,
 kernel/vm.c), as values.  Each function here is one atomic change the kernel
 makes; the lemmas say what it keeps and what each process sees of it.
 */
module CowState {
  import opened Common
  import opened Paging

  type Page = s: seq<Byte> | |s| == PGSIZE witness seq(PGSIZE, _ => 0)

  function Filled(b: Byte): Page {
    seq(PGSIZE, _ => b)
  }

  type Pid = nat

  /** A user leaf entry: the page and the flags PTE_R, PTE_W, PTE_X, PTE_U and PTE_C. */
  datatype Pte = Pte(ppn: nat, r: bool, w: bool, x: bool, u: bool, c: bool)

  function MidOf(vpn: nat): Node {
    Mid(vpn / 512 / 512)
  }

  function LowOf(vpn: nat): Node {
    Low(vpn / 512)
  }

  /** A page table with its size: the table pages by name, the leaves by virtual page. */
  datatype Space = Space(nodes: map<Node, nat>, leaves: map<nat, Pte>, sz: nat)

  function Pages(sz: nat): nat {
    (sz + PGSIZE - 1) / PGSIZE
  }

  /** What a physical page is in use for; `Held` is kalloc'ed and not yet entered in a table. */
  datatype Use = Free | Held | Table(pid: Pid, node: Node) | Data(mappers: set<(Pid, nat)>)

  datatype Vm = Vm(freelist: seq<nat>, refs: seq<nat>, mem: seq<Page>, spaces: map<Pid, Space>, use: seq<Use>)

  ghost predicate Sized(s: Vm) {
    |s.refs| == |s.mem| == |s.use|
  }

  // The free list holds every free page once and nothing else.
  ghost predicate FreeInv(s: Vm)
    requires Sized(s)
  {
    && (forall k :: 0 <= k < |s.freelist| ==> s.freelist[k] < |s.use| && s.use[s.freelist[k]] == Free)
    && (forall j, k :: 0 <= j < k < |s.freelist| ==> s.freelist[j] != s.freelist[k])
    && (forall p :: 0 <= p < |s.use| && s.use[p] == Free ==> p in s.freelist)
  }

  // Table pages belong to one table each.
  ghost predicate TableInv(s: Vm)
    requires Sized(s)
  {
    && (forall pid, node :: pid in s.spaces && node in s.spaces[pid].nodes ==>
      s.spaces[pid].nodes[node] < |s.use| && s.use[s.spaces[pid].nodes[node]] == Table(pid, node))
    && (forall p :: 0 <= p < |s.use| && s.use[p].Table? ==>
      && s.use[p].pid in s.spaces && s.use[p].node in s.spaces[s.use[p].pid].nodes
      && s.spaces[s.use[p].pid].nodes[s.use[p].node] == p)
  }

  // The mappers of a page are exactly the leaves that refer to it.
  ghost predicate LeafInv(s: Vm)
    requires Sized(s)
  {
    && (forall pid, v :: pid in s.spaces && v in s.spaces[pid].leaves ==>
      && s.spaces[pid].leaves[v].ppn < |s.use| && s.use[s.spaces[pid].leaves[v].ppn].Data?
      && (pid, v) in s.use[s.spaces[pid].leaves[v].ppn].mappers)
    && (forall p, pid, v :: 0 <= p < |s.use| && s.use[p].Data? && (pid, v) in s.use[p].mappers ==>
      pid in s.spaces && v in s.spaces[pid].leaves && s.spaces[pid].leaves[v].ppn == p)
  }

  // A page in use counts its mappers; a table or held page counts one.
  ghost predicate CountInv(s: Vm)
    requires Sized(s)
  {
    forall p :: 0 <= p < |s.use| ==>
      && (s.use[p].Data? ==> s.refs[p] == |s.use[p].mappers| > 0)
      && (s.use[p].Table? || s.use[p].Held? ==> s.refs[p] == 1)
  }

  // A leaf the hardware lets a process write through is the only one on its page, and is not marked copy-on-write.
  ghost predicate WriteInv(s: Vm)
    requires Sized(s) && LeafInv(s)
  {
    forall pid, v :: pid in s.spaces && v in s.spaces[pid].leaves && s.spaces[pid].leaves[v].w ==>
      s.refs[s.spaces[pid].leaves[v].ppn] == 1 && !s.spaces[pid].leaves[v].c
  }

  // Every table has a root, and the tables on the path to each leaf.
  ghost predicate PathInv(s: Vm) {
    forall pid :: pid in s.spaces ==>
      && Root in s.spaces[pid].nodes
      && forall v :: v in s.spaces[pid].leaves ==> MidOf(v) in s.spaces[pid].nodes && LowOf(v) in s.spaces[pid].nodes
  }

  ghost predicate Inv(s: Vm) {
    Sized(s) && FreeInv(s) && TableInv(s) && LeafInv(s) && CountInv(s) && WriteInv(s) && PathInv(s)
  }

  // ---- what the processes see

  /** A page as a process sees it when every fork copies every page: contents and permissions of its own. */
  datatype View = View(bytes: Page, r: bool, w: bool, x: bool, u: bool)

  datatype Image = Image(sz: nat, pages: map<nat, View>)

  // A leaf can be written, now or after a copy-on-write fault.
  predicate Writable(pte: Pte) {
    pte.w || pte.c
  }

  ghost function Seen(mem: seq<Page>, pte: Pte): View
    requires pte.ppn < |mem|
  {
    View(mem[pte.ppn], pte.r, Writable(pte), pte.x, pte.u)
  }

  ghost function ImageOf(mem: seq<Page>, sp: Space): Image
    requires forall v :: v in sp.leaves ==> sp.leaves[v].ppn < |mem|
  {
    Image(sp.sz, map v | v in sp.leaves :: Seen(mem, sp.leaves[v]))
  }

  ghost function Abs(s: Vm): map<Pid, Image>
    requires Sized(s) && LeafInv(s)
  {
    map pid | pid in s.spaces :: ImageOf(s.mem, s.spaces[pid])
  }

  // ---- kalloc and kfree

  /** kalloc with a page to give: off the list, counted once, filled with junk. */
  function Alloc(s: Vm): Vm
    requires Sized(s) && s.freelist != [] && s.freelist[0] < |s.use|
  {
    var p := s.freelist[0];
    s.(freelist := s.freelist[1..], refs := s.refs[p := 1], mem := s.mem[p := Filled(5)], use := s.use[p := Held])
  }

  // A change to a page that is neither a table nor mapped.
  ghost predicate Aside(s: Vm, s': Vm, p: nat) {
    && Sized(s) && Sized(s') && p < |s.use| == |s'.use|
    && s'.spaces == s.spaces && (s.use[p].Free? || s.use[p].Held?) && (s'.use[p].Free? || s'.use[p].Held?)
    && forall q :: 0 <= q < |s.use| && q != p ==>
       s'.use[q] == s.use[q] && s'.refs[q] == s.refs[q] && s'.mem[q] == s.mem[q]
  }

  lemma AsideTables(s: Vm, s': Vm, p: nat)
    requires Aside(s, s', p) && TableInv(s)
    ensures TableInv(s')
  {
    forall pid, node | pid in s'.spaces && node in s'.spaces[pid].nodes
      ensures s'.spaces[pid].nodes[node] < |s'.use| && s'.use[s'.spaces[pid].nodes[node]] == Table(pid, node)
    {
      assert s.use[s.spaces[pid].nodes[node]] == Table(pid, node);
    }
  }

  lemma AsideLeaves(s: Vm, s': Vm, p: nat)
    requires Aside(s, s', p) && LeafInv(s)
    ensures LeafInv(s')
  {
    forall pid, v | pid in s'.spaces && v in s'.spaces[pid].leaves
      ensures s'.spaces[pid].leaves[v].ppn < |s'.use|
        && s'.use[s'.spaces[pid].leaves[v].ppn] == s.use[s.spaces[pid].leaves[v].ppn]
    {
      assert s.use[s.spaces[pid].leaves[v].ppn].Data?;
    }
  }

  lemma AsideViews(s: Vm, s': Vm, p: nat)
    requires Aside(s, s', p) && LeafInv(s) && LeafInv(s') && WriteInv(s)
    ensures WriteInv(s') && Abs(s') == Abs(s)
  {
    forall pid, v | pid in s'.spaces && v in s'.spaces[pid].leaves
      ensures s'.spaces[pid].leaves[v].ppn != p
    {
      assert s.use[s.spaces[pid].leaves[v].ppn].Data?;
    }
    SameViews(s, s');
  }

  lemma AsideKeeps(s: Vm, s': Vm, p: nat)
    requires Inv(s) && Aside(s, s', p)
    ensures TableInv(s') && LeafInv(s') && WriteInv(s') && PathInv(s') && Abs(s') == Abs(s)
  {
    hide FreeInv, CountInv, TableInv, LeafInv, WriteInv, Abs;
    AsideTables(s, s', p);
    AsideLeaves(s, s', p);
    AsideViews(s, s', p);
  }

  lemma AllocKeeps(s: Vm)
    requires Inv(s) && s.freelist != []
    ensures Inv(Alloc(s)) && Abs(Alloc(s)) == Abs(s)
  {
    var s', p := Alloc(s), s.freelist[0];
    assert FreeInv(s') by {
      hide CountInv, TableInv, PathInv, WriteInv, LeafInv;
      forall q | 0 <= q < |s'.use| && s'.use[q] == Free ensures q in s'.freelist {
        assert q in s.freelist;
      }
    }
    assert CountInv(s') by {
      hide FreeInv, TableInv, PathInv, WriteInv, LeafInv;
    }
    AsideKeeps(s, s', p);
  }

  /** kfree of a page nothing maps: junk in it, and back on the list. */
  function Unhold(s: Vm, p: nat): Vm
    requires Sized(s) && p < |s.use|
  {
    s.(freelist := [p] + s.freelist, mem := s.mem[p := Filled(1)], use := s.use[p := Free])
  }

  lemma UnholdKeeps(s: Vm, p: nat)
    requires Inv(s) && p < |s.use| && s.use[p] == Held
    ensures Inv(Unhold(s, p)) && Abs(Unhold(s, p)) == Abs(s)
  {
    var s' := Unhold(s, p);
    FreedKeeps(s, s', p);
    assert CountInv(s') by {
      hide FreeInv, TableInv, PathInv, WriteInv, LeafInv;
    }
    AsideKeeps(s, s', p);
  }

  // Any page in use may be put on the free list once.
  lemma FreedKeeps(s: Vm, s': Vm, p: nat)
    requires Inv(s) && p < |s.use| && !s.use[p].Free? && Sized(s')
    requires s'.freelist == [p] + s.freelist && s'.use == s.use[p := Free]
    ensures FreeInv(s')
  {
    hide CountInv, TableInv, PathInv, WriteInv, LeafInv;
    assert p !in s.freelist;
    forall q | 0 <= q < |s'.use| && s'.use[q] == Free ensures q in s'.freelist {
      assert q == p || q in s.freelist;
      assert s'.freelist[0] == p && s'.freelist[1..] == s.freelist;
    }
  }

  // Nothing anyone sees has changed if no mapped page has.
  lemma SameViews(s: Vm, s': Vm)
    requires Sized(s) && Sized(s') && LeafInv(s) && LeafInv(s')
    requires s'.spaces.Keys == s.spaces.Keys
    requires forall pid :: pid in s.spaces ==> s'.spaces[pid].sz == s.spaces[pid].sz
    requires forall pid :: pid in s.spaces ==> s'.spaces[pid].leaves.Keys == s.spaces[pid].leaves.Keys
    requires forall pid, v :: pid in s.spaces && v in s.spaces[pid].leaves ==>
      Seen(s'.mem, s'.spaces[pid].leaves[v]) == Seen(s.mem, s.spaces[pid].leaves[v])
    ensures Abs(s') == Abs(s)
  {
    forall pid | pid in s.spaces ensures ImageOf(s'.mem, s'.spaces[pid]) == ImageOf(s.mem, s.spaces[pid]) {
      assert ImageOf(s'.mem, s'.spaces[pid]).pages == ImageOf(s.mem, s.spaces[pid]).pages;
    }
  }

  // Only process pid sees a change.
  lemma OneImage(s: Vm, s': Vm, pid: Pid, sp': Space)
    requires Sized(s) && Sized(s') && LeafInv(s) && LeafInv(s')
    requires s'.spaces == s.spaces[pid := sp']
    requires forall q, v :: q in s.spaces && q != pid && v in s.spaces[q].leaves ==>
      s'.mem[s.spaces[q].leaves[v].ppn] == s.mem[s.spaces[q].leaves[v].ppn]
    ensures (forall v :: v in sp'.leaves ==> sp'.leaves[v].ppn < |s'.mem|)
      && Abs(s') == Abs(s)[pid := ImageOf(s'.mem, sp')]
  {
    assert s'.spaces[pid] == sp';
    forall q | q in s.spaces && q != pid ensures ImageOf(s'.mem, s'.spaces[q]) == ImageOf(s.mem, s.spaces[q]) {
      assert s'.spaces[q] == s.spaces[q];
      forall v | v in s.spaces[q].leaves
        ensures Seen(s'.mem, s.spaces[q].leaves[v]) == Seen(s.mem, s.spaces[q].leaves[v])
      {
      }
    }
  }

  // ---- entering a leaf

  ghost function Mappers(u: Use): set<(Pid, nat)> {
    if u.Data? then u.mappers else {}
  }

  function PutLeaf(sp: Space, v: nat, pte: Pte): Space {
    sp.(leaves := sp.leaves[v := pte])
  }

  /** mappages of one page, with refcnt_inc when the page was mapped already. */
  ghost function Enter(s: Vm, pid: Pid, v: nat, pte: Pte): Vm
    requires Sized(s) && pid in s.spaces && pte.ppn < |s.use|
  {
    var u := s.use[pte.ppn];
    s.(refs := if u.Data? then s.refs[pte.ppn := s.refs[pte.ppn] + 1] else s.refs,
       spaces := s.spaces[pid := PutLeaf(s.spaces[pid], v, pte)],
       use := s.use[pte.ppn := Data(Mappers(u) + {(pid, v)})])
  }

  ghost predicate CanEnter(s: Vm, pid: Pid, v: nat, pte: Pte) {
    && Inv(s) && pid in s.spaces && v !in s.spaces[pid].leaves && pte.ppn < |s.use|
    && MidOf(v) in s.spaces[pid].nodes && LowOf(v) in s.spaces[pid].nodes
    && (s.use[pte.ppn].Held? || s.use[pte.ppn].Data?)
    && (pte.w ==> s.use[pte.ppn].Held? && !pte.c)
    && (forall q, t :: (q, t) in Mappers(s.use[pte.ppn]) && q in s.spaces && t in s.spaces[q].leaves ==>
       !s.spaces[q].leaves[t].w)
  }

  // Changes to leaves alone leave the tables and the free list as they were.
  ghost predicate SameTables(s: Vm, s': Vm) {
    && Sized(s) && Sized(s') && |s.use| == |s'.use|
    && s'.spaces.Keys == s.spaces.Keys
    && (forall pid :: pid in s.spaces ==> s'.spaces[pid].nodes == s.spaces[pid].nodes)
    && (forall p :: 0 <= p < |s.use| && (s.use[p].Table? || s'.use[p].Table?) ==> s'.use[p] == s.use[p])
  }

  lemma TablesKept(s: Vm, s': Vm)
    requires SameTables(s, s') && TableInv(s)
    ensures TableInv(s')
  {
    forall pid, node | pid in s'.spaces && node in s'.spaces[pid].nodes
      ensures s'.spaces[pid].nodes[node] < |s'.use| && s'.use[s'.spaces[pid].nodes[node]] == Table(pid, node)
    {
      assert s.use[s.spaces[pid].nodes[node]] == Table(pid, node);
    }
    forall p | 0 <= p < |s'.use| && s'.use[p].Table?
      ensures s'.use[p].pid in s'.spaces && s'.use[p].node in s'.spaces[s'.use[p].pid].nodes
      ensures s'.spaces[s'.use[p].pid].nodes[s'.use[p].node] == p
    {
      assert s'.use[p] == s.use[p];
    }
  }

  lemma FreeKept(s: Vm, s': Vm)
    requires Sized(s) && Sized(s') && |s.use| == |s'.use| && FreeInv(s) && s'.freelist == s.freelist
    requires forall p :: 0 <= p < |s.use| ==> s'.use[p].Free? == s.use[p].Free?
    ensures FreeInv(s')
  {
  }

  lemma EnterTables(s: Vm, pid: Pid, v: nat, pte: Pte)
    requires CanEnter(s, pid, v, pte)
    ensures TableInv(Enter(s, pid, v, pte)) && FreeInv(Enter(s, pid, v, pte))
  {
    hide FreeInv, TableInv, LeafInv, CountInv, WriteInv, PathInv;
    var s' := Enter(s, pid, v, pte);
    FreeKept(s, s');
    TablesKept(s, s');
  }

  lemma EnterPaths(s: Vm, pid: Pid, v: nat, pte: Pte)
    requires CanEnter(s, pid, v, pte)
    ensures PathInv(Enter(s, pid, v, pte))
  {
    hide FreeInv, TableInv, LeafInv, CountInv, WriteInv;
  }

  lemma EnterLeaves(s: Vm, pid: Pid, v: nat, pte: Pte)
    requires CanEnter(s, pid, v, pte)
    ensures LeafInv(Enter(s, pid, v, pte))
  {
    hide FreeInv, TableInv, WriteInv, PathInv, CountInv;
    EnterMapped(s, pid, v, pte);
    EnterMappers(s, pid, v, pte);
  }

  // Each leaf is among the mappers of its page,
  lemma EnterMapped(s: Vm, pid: Pid, v: nat, pte: Pte)
    requires CanEnter(s, pid, v, pte)
    ensures var s' := Enter(s, pid, v, pte);
      forall q, t :: q in s'.spaces && t in s'.spaces[q].leaves ==>
        && s'.spaces[q].leaves[t].ppn < |s'.use| && s'.use[s'.spaces[q].leaves[t].ppn].Data?
        && (q, t) in s'.use[s'.spaces[q].leaves[t].ppn].mappers
  {
    hide FreeInv, TableInv, WriteInv, PathInv, CountInv;
    var s' := Enter(s, pid, v, pte);
    forall q, t | q in s'.spaces && t in s'.spaces[q].leaves
      ensures s'.spaces[q].leaves[t].ppn < |s'.use| && s'.use[s'.spaces[q].leaves[t].ppn].Data?
      ensures (q, t) in s'.use[s'.spaces[q].leaves[t].ppn].mappers
    {
      if (q, t) != (pid, v) {
        assert s'.spaces[q].leaves[t] == s.spaces[q].leaves[t];
        assert (q, t) in s.use[s.spaces[q].leaves[t].ppn].mappers;
      }
    }
  }

  // and each mapper has its leaf.
  lemma EnterMappers(s: Vm, pid: Pid, v: nat, pte: Pte)
    requires CanEnter(s, pid, v, pte)
    ensures var s' := Enter(s, pid, v, pte);
      forall p, q, t :: 0 <= p < |s'.use| && s'.use[p].Data? && (q, t) in s'.use[p].mappers ==>
        q in s'.spaces && t in s'.spaces[q].leaves && s'.spaces[q].leaves[t].ppn == p
  {
    hide FreeInv, TableInv, WriteInv, PathInv, CountInv;
    var s' := Enter(s, pid, v, pte);
    assert (pid, v) !in Mappers(s.use[pte.ppn]);
    forall p, q, t | 0 <= p < |s'.use| && s'.use[p].Data? && (q, t) in s'.use[p].mappers
      ensures q in s'.spaces && t in s'.spaces[q].leaves && s'.spaces[q].leaves[t].ppn == p
    {
      assert ((q, t) == (pid, v) && p == pte.ppn) || (q, t) in Mappers(s.use[p]);
    }
  }

  lemma EnterCounts(s: Vm, pid: Pid, v: nat, pte: Pte)
    requires CanEnter(s, pid, v, pte)
    ensures CountInv(Enter(s, pid, v, pte))
  {
    hide FreeInv, TableInv, WriteInv, PathInv;
    assert (pid, v) !in Mappers(s.use[pte.ppn]);
  }

  lemma EnterWrites(s: Vm, pid: Pid, v: nat, pte: Pte)
    requires CanEnter(s, pid, v, pte) && LeafInv(Enter(s, pid, v, pte))
    ensures WriteInv(Enter(s, pid, v, pte))
    ensures Abs(Enter(s, pid, v, pte)) == Abs(s)[pid := ImageOf(s.mem, PutLeaf(s.spaces[pid], v, pte))]
  {
    hide FreeInv, TableInv, PathInv;
    var s' := Enter(s, pid, v, pte);
    forall q, t | q in s'.spaces && t in s'.spaces[q].leaves && s'.spaces[q].leaves[t].w
      ensures s'.refs[s'.spaces[q].leaves[t].ppn] == 1 && !s'.spaces[q].leaves[t].c
    {
      if (q, t) != (pid, v) {
        assert s'.spaces[q].leaves[t] == s.spaces[q].leaves[t];
        assert (q, t) in s.use[s.spaces[q].leaves[t].ppn].mappers;
      }
    }
    OneImage(s, s', pid, PutLeaf(s.spaces[pid], v, pte));
  }

  lemma EnterKeeps(s: Vm, pid: Pid, v: nat, pte: Pte)
    requires CanEnter(s, pid, v, pte)
    ensures Inv(Enter(s, pid, v, pte))
    ensures Abs(Enter(s, pid, v, pte)) == Abs(s)[pid := ImageOf(s.mem, PutLeaf(s.spaces[pid], v, pte))]
  {
    hide FreeInv, TableInv, PathInv, WriteInv, CountInv, LeafInv, Abs;
    EnterTables(s, pid, v, pte);
    EnterPaths(s, pid, v, pte);
    EnterLeaves(s, pid, v, pte);
    EnterCounts(s, pid, v, pte);
    EnterWrites(s, pid, v, pte);
  }

  // ---- leaving a leaf

  function CutLeaf(sp: Space, v: nat): Space {
    sp.(leaves := sp.leaves - {v})
  }

  // kfree while others map the page: count down.
  ghost function LeaveShared(s: Vm, pid: Pid, v: nat, p: nat): (t: Vm)
    requires Sized(s) && pid in s.spaces && p < |s.use| && s.refs[p] > 0
    ensures Sized(t) && |t.use| == |s.use|
  {
    s.(spaces := s.spaces[pid := CutLeaf(s.spaces[pid], v)],
       refs := s.refs[p := s.refs[p] - 1], use := s.use[p := Data(Mappers(s.use[p]) - {(pid, v)})])
  }

  // kfree by the last one: junk, and on the free list.
  ghost function LeaveLast(s: Vm, pid: Pid, v: nat, p: nat): (t: Vm)
    requires Sized(s) && pid in s.spaces && p < |s.use|
    ensures Sized(t) && |t.use| == |s.use|
  {
    s.(spaces := s.spaces[pid := CutLeaf(s.spaces[pid], v)],
       freelist := [p] + s.freelist, mem := s.mem[p := Filled(1)], use := s.use[p := Free])
  }

  /** uvmunmap of one page with do_free: kfree it, which only counts down while others map it, and clear the entry. */
  ghost function Leave(s: Vm, pid: Pid, v: nat): (t: Vm)
    requires Sized(s) && LeafInv(s) && pid in s.spaces && v in s.spaces[pid].leaves
    ensures Sized(t) && |t.use| == |s.use|
  {
    var p := s.spaces[pid].leaves[v].ppn;
    if s.refs[p] > 1 then LeaveShared(s, pid, v, p) else LeaveLast(s, pid, v, p)
  }

  ghost predicate CanLeave(s: Vm, pid: Pid, v: nat, p: nat) {
    Inv(s) && pid in s.spaces && v in s.spaces[pid].leaves && s.spaces[pid].leaves[v].ppn == p && p < |s.use|
  }

  lemma OnlyMember<T>(m: set<T>, x: T)
    requires |m| == 1 && x in m
    ensures m == {x}
  {
    assert |m - {x}| == 0;
    assert m == (m - {x}) + {x};
  }

  lemma LeafMapped(s: Vm, pid: Pid, v: nat)
    requires Sized(s) && LeafInv(s) && pid in s.spaces && v in s.spaces[pid].leaves
    ensures var p := s.spaces[pid].leaves[v].ppn; p < |s.use| && s.use[p].Data? && (pid, v) in s.use[p].mappers
  {
  }

  lemma LastMapper(s: Vm, pid: Pid, v: nat)
    requires Sized(s) && LeafInv(s) && CountInv(s) && pid in s.spaces && v in s.spaces[pid].leaves
    requires s.refs[s.spaces[pid].leaves[v].ppn] <= 1
    ensures s.use[s.spaces[pid].leaves[v].ppn] == Data({(pid, v)})
  {
    OnlyMember(s.use[s.spaces[pid].leaves[v].ppn].mappers, (pid, v));
  }

  lemma LeavePaths(s: Vm, s': Vm, pid: Pid, v: nat)
    requires PathInv(s) && pid in s.spaces && s'.spaces == s.spaces[pid := CutLeaf(s.spaces[pid], v)]
    ensures PathInv(s')
  {
  }

  // With one leaf of pid gone, every leaf left refers to the page it did.
  lemma LeaveLeaves(s: Vm, s': Vm, pid: Pid, v: nat, p: nat)
    requires CanLeave(s, pid, v, p) && Sized(s') && |s'.use| == |s.use|
    requires s'.spaces == s.spaces[pid := CutLeaf(s.spaces[pid], v)]
    requires forall q :: 0 <= q < |s.use| && q != p ==> s'.use[q] == s.use[q]
    requires Mappers(s'.use[p]) == Mappers(s.use[p]) - {(pid, v)}
    requires !s'.use[p].Data? ==> Mappers(s.use[p]) == {(pid, v)}
    ensures LeafInv(s')
  {
    hide FreeInv, TableInv, WriteInv, PathInv, CountInv;
    forall q, t | q in s'.spaces && t in s'.spaces[q].leaves
      ensures s'.spaces[q].leaves[t].ppn < |s'.use| && s'.use[s'.spaces[q].leaves[t].ppn].Data?
      ensures (q, t) in s'.use[s'.spaces[q].leaves[t].ppn].mappers
    {
      assert s'.spaces[q].leaves[t] == s.spaces[q].leaves[t] && (q, t) != (pid, v);
      assert (q, t) in s.use[s.spaces[q].leaves[t].ppn].mappers;
    }
    forall r, q, t | 0 <= r < |s'.use| && s'.use[r].Data? && (q, t) in s'.use[r].mappers
      ensures q in s'.spaces && t in s'.spaces[q].leaves && s'.spaces[q].leaves[t].ppn == r
    {
      assert (q, t) in Mappers(s'.use[r]);
      assert (q, t) in Mappers(s.use[r]) && (r == p ==> (q, t) != (pid, v));
    }
  }

  lemma LeaveWrites(s: Vm, s': Vm, pid: Pid, v: nat, p: nat)
    requires Sized(s) && Sized(s') && |s'.use| == |s.use| && LeafInv(s) && LeafInv(s') && WriteInv(s)
    requires pid in s.spaces && s'.spaces == s.spaces[pid := CutLeaf(s.spaces[pid], v)]
    requires p < |s.use| && forall q :: 0 <= q < |s.use| && q != p ==> s'.refs[q] == s.refs[q]
    requires s'.use[p].Data? && s.refs[p] == 1 ==> s'.refs[p] == 1
    ensures WriteInv(s')
  {
    forall q, t | q in s'.spaces && t in s'.spaces[q].leaves && s'.spaces[q].leaves[t].w
      ensures s'.refs[s'.spaces[q].leaves[t].ppn] == 1 && !s'.spaces[q].leaves[t].c
    {
      assert s'.spaces[q].leaves[t] == s.spaces[q].leaves[t];
      assert s'.use[s'.spaces[q].leaves[t].ppn].Data?;
    }
  }

  lemma LeaveAbs(s: Vm, s': Vm, pid: Pid, v: nat, p: nat)
    requires Sized(s) && Sized(s') && |s'.use| == |s.use| && LeafInv(s) && LeafInv(s')
    requires pid in s.spaces && s'.spaces == s.spaces[pid := CutLeaf(s.spaces[pid], v)]
    requires p < |s.use| && forall q :: 0 <= q < |s.use| && q != p ==> s'.mem[q] == s.mem[q]
    requires s'.use[p].Data? ==> s'.mem[p] == s.mem[p]
    ensures Abs(s') == Abs(s)[pid := Image(s.spaces[pid].sz, Abs(s)[pid].pages - {v})]
  {
    forall q, t | q in s'.spaces && t in s'.spaces[q].leaves
      ensures s'.spaces[q].leaves[t] == s.spaces[q].leaves[t]
      ensures s'.mem[s.spaces[q].leaves[t].ppn] == s.mem[s.spaces[q].leaves[t].ppn]
    {
      assert s'.spaces[q].leaves[t] == s.spaces[q].leaves[t];
      assert s'.use[s'.spaces[q].leaves[t].ppn].Data?;
    }
    var sp' := CutLeaf(s.spaces[pid], v);
    OneImage(s, s', pid, sp');
    CutImage(s.mem, s'.mem, s.spaces[pid], v);
  }

  lemma CutImage(mem: seq<Page>, mem': seq<Page>, sp: Space, v: nat)
    requires forall t :: t in sp.leaves ==> sp.leaves[t].ppn < |mem|
    requires |mem'| == |mem| && forall t :: t in sp.leaves && t != v ==> mem'[sp.leaves[t].ppn] == mem[sp.leaves[t].ppn]
    ensures ImageOf(mem', CutLeaf(sp, v)) == Image(sp.sz, ImageOf(mem, sp).pages - {v})
  {
    assert ImageOf(mem', CutLeaf(sp, v)).pages == ImageOf(mem, sp).pages - {v};
  }

  lemma CountDown(s: Vm, pid: Pid, v: nat, p: nat)
    requires Sized(s) && CountInv(s) && pid in s.spaces && p < |s.use|
    requires s.use[p].Data? && (pid, v) in s.use[p].mappers && s.refs[p] > 1
    ensures CountInv(LeaveShared(s, pid, v, p))
  {
    assert |s.use[p].mappers - {(pid, v)}| == |s.use[p].mappers| - 1;
  }

  lemma LeaveSharedKeeps(s: Vm, pid: Pid, v: nat, p: nat)
    requires CanLeave(s, pid, v, p) && s.refs[p] > 1 && s.use[p].Data? && (pid, v) in s.use[p].mappers
    ensures Inv(LeaveShared(s, pid, v, p))
    ensures Abs(LeaveShared(s, pid, v, p)) == Abs(s)[pid := Image(s.spaces[pid].sz, Abs(s)[pid].pages - {v})]
  {
    hide FreeInv, TableInv, PathInv, WriteInv, CountInv, LeafInv, Abs;
    var s' := LeaveShared(s, pid, v, p);
    CountDown(s, pid, v, p);
    TablesKept(s, s');
    FreeKept(s, s');
    LeavePaths(s, s', pid, v);
    LeaveLeaves(s, s', pid, v, p);
    LeaveWrites(s, s', pid, v, p);
    LeaveAbs(s, s', pid, v, p);
  }

  lemma CountGone(s: Vm, pid: Pid, v: nat, p: nat)
    requires Sized(s) && CountInv(s) && pid in s.spaces && p < |s.use|
    ensures CountInv(LeaveLast(s, pid, v, p))
  {
  }

  lemma LeaveLastKeeps(s: Vm, pid: Pid, v: nat, p: nat)
    requires CanLeave(s, pid, v, p) && s.refs[p] <= 1 && s.use[p] == Data({(pid, v)})
    ensures Inv(LeaveLast(s, pid, v, p))
    ensures Abs(LeaveLast(s, pid, v, p)) == Abs(s)[pid := Image(s.spaces[pid].sz, Abs(s)[pid].pages - {v})]
  {
    hide FreeInv, TableInv, PathInv, WriteInv, CountInv, LeafInv, Abs;
    var s' := LeaveLast(s, pid, v, p);
    CountGone(s, pid, v, p);
    TablesKept(s, s');
    FreedKeeps(s, s', p);
    LeavePaths(s, s', pid, v);
    LeaveLeaves(s, s', pid, v, p);
    LeaveWrites(s, s', pid, v, p);
    LeaveAbs(s, s', pid, v, p);
  }

  lemma LeaveKeeps(s: Vm, pid: Pid, v: nat)
    requires Inv(s) && pid in s.spaces && v in s.spaces[pid].leaves
    ensures Inv(Leave(s, pid, v))
    ensures Abs(Leave(s, pid, v)) == Abs(s)[pid := Image(s.spaces[pid].sz, Abs(s)[pid].pages - {v})]
  {
    var p := s.spaces[pid].leaves[v].ppn;
    LeafMapped(s, pid, v);
    if s.refs[p] > 1 {
      LeaveSharedKeeps(s, pid, v, p);
    } else {
      LastMapper(s, pid, v);
      LeaveLastKeeps(s, pid, v, p);
    }
  }

  // ---- changing a leaf's flags, or the page under it

  /** A store to an entry that keeps its page. */
  ghost function Reflag(s: Vm, pid: Pid, v: nat, pte: Pte): (t: Vm)
    requires Sized(s) && pid in s.spaces
    ensures Sized(t) && |t.use| == |s.use|
  {
    s.(spaces := s.spaces[pid := PutLeaf(s.spaces[pid], v, pte)])
  }

  lemma ReflagLeaves(s: Vm, pid: Pid, v: nat, pte: Pte)
    requires Sized(s) && LeafInv(s) && pid in s.spaces && v in s.spaces[pid].leaves
    requires pte.ppn == s.spaces[pid].leaves[v].ppn
    ensures LeafInv(Reflag(s, pid, v, pte))
  {
    var s' := Reflag(s, pid, v, pte);
    forall q, t | q in s'.spaces && t in s'.spaces[q].leaves
      ensures s'.spaces[q].leaves[t].ppn < |s'.use| && s'.use[s'.spaces[q].leaves[t].ppn].Data?
      ensures (q, t) in s'.use[s'.spaces[q].leaves[t].ppn].mappers
    {
      assert q in s.spaces && t in s.spaces[q].leaves && s'.spaces[q].leaves[t].ppn == s.spaces[q].leaves[t].ppn;
    }
  }

  lemma ReflagPaths(s: Vm, pid: Pid, v: nat, pte: Pte)
    requires Sized(s) && PathInv(s) && pid in s.spaces && v in s.spaces[pid].leaves
    ensures PathInv(Reflag(s, pid, v, pte))
  {
  }

  lemma ReflagViews(s: Vm, pid: Pid, v: nat, pte: Pte)
    requires Sized(s) && LeafInv(s) && WriteInv(s) && pid in s.spaces && v in s.spaces[pid].leaves
    requires pte.ppn == s.spaces[pid].leaves[v].ppn && (pte.w ==> s.refs[pte.ppn] == 1 && !pte.c)
    requires LeafInv(Reflag(s, pid, v, pte))
    ensures WriteInv(Reflag(s, pid, v, pte))
    ensures Abs(Reflag(s, pid, v, pte)) == Abs(s)[pid := ImageOf(s.mem, PutLeaf(s.spaces[pid], v, pte))]
  {
    OneImage(s, Reflag(s, pid, v, pte), pid, PutLeaf(s.spaces[pid], v, pte));
  }

  // When the new flags mean the same to the process, it sees no change.
  lemma SameMeaning(mem: seq<Page>, sp: Space, v: nat, pte: Pte)
    requires forall t :: t in sp.leaves ==> sp.leaves[t].ppn < |mem|
    requires v in sp.leaves && pte.ppn == sp.leaves[v].ppn && Seen(mem, pte) == Seen(mem, sp.leaves[v])
    ensures ImageOf(mem, PutLeaf(sp, v, pte)) == ImageOf(mem, sp)
  {
    assert ImageOf(mem, PutLeaf(sp, v, pte)).pages == ImageOf(mem, sp).pages;
  }

  lemma ReflagMeans(s: Vm, pid: Pid, v: nat, pte: Pte)
    requires Sized(s) && LeafInv(s) && WriteInv(s) && pid in s.spaces && v in s.spaces[pid].leaves
    requires pte.ppn == s.spaces[pid].leaves[v].ppn && (pte.w ==> s.refs[pte.ppn] == 1 && !pte.c)
    requires LeafInv(Reflag(s, pid, v, pte)) && Seen(s.mem, pte) == Seen(s.mem, s.spaces[pid].leaves[v])
    ensures WriteInv(Reflag(s, pid, v, pte)) && Abs(Reflag(s, pid, v, pte)) == Abs(s)
  {
    ReflagViews(s, pid, v, pte);
    AbsAt(s, pid);
    SameMeaning(s.mem, s.spaces[pid], v, pte);
    assert Abs(s)[pid := Abs(s)[pid]] == Abs(s);
  }

  lemma ReflagKeeps(s: Vm, pid: Pid, v: nat, pte: Pte)
    requires Inv(s) && pid in s.spaces && v in s.spaces[pid].leaves
    requires pte.ppn == s.spaces[pid].leaves[v].ppn && pte.ppn < |s.refs| && (pte.w ==> s.refs[pte.ppn] == 1 && !pte.c)
    requires Seen(s.mem, pte) == Seen(s.mem, s.spaces[pid].leaves[v])
    ensures Inv(Reflag(s, pid, v, pte)) && Abs(Reflag(s, pid, v, pte)) == Abs(s)
  {
    hide FreeInv, TableInv, PathInv, WriteInv, CountInv, LeafInv, Abs, Seen;
    var s' := Reflag(s, pid, v, pte);
    TablesKept(s, s');
    FreeKept(s, s');
    ReflagLeaves(s, pid, v, pte);
    ReflagPaths(s, pid, v, pte);
    ReflagMeans(s, pid, v, pte);
    SameCounts(s, s');
  }

  lemma SameCounts(s: Vm, s': Vm)
    requires Sized(s) && Sized(s') && CountInv(s) && s'.use == s.use && s'.refs == s.refs
    ensures CountInv(s')
  {
  }

  lemma SameLeaves(s: Vm, s': Vm)
    requires Sized(s) && Sized(s') && LeafInv(s) && LeafInv(s') && WriteInv(s) && PathInv(s)
    requires s'.spaces == s.spaces && s'.refs == s.refs
    ensures WriteInv(s') && PathInv(s')
  {
  }

  lemma AbsAt(s: Vm, pid: Pid)
    requires Sized(s) && LeafInv(s) && pid in s.spaces
    ensures forall v :: v in s.spaces[pid].leaves ==> s.spaces[pid].leaves[v].ppn < |s.mem|
    ensures pid in Abs(s) && Abs(s)[pid] == ImageOf(s.mem, s.spaces[pid])
  {
  }

  /** A store through a writable leaf. */
  ghost function Poke(s: Vm, p: nat, bytes: Page): (t: Vm)
    requires Sized(s) && p < |s.mem|
    ensures Sized(t) && |t.use| == |s.use|
  {
    s.(mem := s.mem[p := bytes])
  }

  function PutBytes(im: Image, v: nat, bytes: Page): Image {
    if v in im.pages then im.(pages := im.pages[v := im.pages[v].(bytes := bytes)]) else im
  }

  lemma PokeImage(mem: seq<Page>, sp: Space, v: nat, bytes: Page)
    requires forall t :: t in sp.leaves ==> sp.leaves[t].ppn < |mem|
    requires v in sp.leaves && forall t :: t in sp.leaves && sp.leaves[t].ppn == sp.leaves[v].ppn ==> t == v
    ensures ImageOf(mem[sp.leaves[v].ppn := bytes], sp) == PutBytes(ImageOf(mem, sp), v, bytes)
  {
    assert ImageOf(mem[sp.leaves[v].ppn := bytes], sp).pages == PutBytes(ImageOf(mem, sp), v, bytes).pages;
  }

  lemma PokeOthers(s: Vm, pid: Pid, v: nat, p: nat)
    requires Sized(s) && LeafInv(s) && p < |s.use| && s.use[p] == Data({(pid, v)})
    ensures forall q, t :: q in s.spaces && t in s.spaces[q].leaves && s.spaces[q].leaves[t].ppn == p ==>
      q == pid && t == v
  {
    forall q, t | q in s.spaces && t in s.spaces[q].leaves && s.spaces[q].leaves[t].ppn == p ensures (q, t) == (pid, v)
    {
      assert (q, t) in s.use[p].mappers;
    }
  }

  // Writing through the only leaf of a page changes that page of that process and nothing else.
  lemma PokeAbs(s: Vm, pid: Pid, v: nat, p: nat, bytes: Page)
    requires Sized(s) && LeafInv(s) && pid in s.spaces && v in s.spaces[pid].leaves
    requires p == s.spaces[pid].leaves[v].ppn && p < |s.use| && s.use[p] == Data({(pid, v)})
    ensures LeafInv(Poke(s, p, bytes))
    ensures Abs(Poke(s, p, bytes)) == Abs(s)[pid := PutBytes(Abs(s)[pid], v, bytes)]
  {
    hide Abs, ImageOf, PutBytes;
    var s' := Poke(s, p, bytes);
    AbsAt(s, pid);
    PokeOthers(s, pid, v, p);
    PokeImage(s.mem, s.spaces[pid], v, bytes);
    assert LeafInv(s');
    assert s'.spaces == s.spaces[pid := s.spaces[pid]];
    OneImage(s, s', pid, s.spaces[pid]);
  }

  lemma PokeKeeps(s: Vm, pid: Pid, v: nat, p: nat, bytes: Page)
    requires Inv(s) && pid in s.spaces && v in s.spaces[pid].leaves
    requires p == s.spaces[pid].leaves[v].ppn && p < |s.use| && s.use[p] == Data({(pid, v)})
    ensures Inv(Poke(s, p, bytes))
    ensures Abs(Poke(s, p, bytes)) == Abs(s)[pid := PutBytes(Abs(s)[pid], v, bytes)]
  {
    hide FreeInv, TableInv, CountInv, LeafInv, WriteInv, PathInv, Abs, PutBytes;
    var s' := Poke(s, p, bytes);
    TablesKept(s, s');
    FreeKept(s, s');
    SameCounts(s, s');
    PokeAbs(s, pid, v, p, bytes);
    SameLeaves(s, s');
  }

  lemma PokeHeldKeeps(s: Vm, p: nat, bytes: Page)
    requires Inv(s) && p < |s.use| && s.use[p] == Held
    ensures Inv(Poke(s, p, bytes)) && Abs(Poke(s, p, bytes)) == Abs(s)
  {
    hide FreeInv, TableInv, CountInv, LeafInv, WriteInv, PathInv, Abs;
    var s' := Poke(s, p, bytes);
    AsideKeeps(s, s', p);
    FreeKept(s, s');
    SameCounts(s, s');
  }

  // ---- table pages

  /** walk with alloc, one level: a zeroed page becomes the table `node`. */
  ghost function Hang(s: Vm, pid: Pid, node: Node, p: nat): (t: Vm)
    requires Sized(s) && pid in s.spaces && p < |s.use|
    ensures Sized(t) && |t.use| == |s.use|
  {
    var sp := s.spaces[pid];
    s.(mem := s.mem[p := Filled(0)], spaces := s.spaces[pid := sp.(nodes := sp.nodes[node := p])],
      use := s.use[p := Table(pid, node)])
  }

  lemma HangTables(s: Vm, pid: Pid, node: Node, p: nat)
    requires Sized(s) && TableInv(s) && pid in s.spaces && p < |s.use| && s.use[p] == Held
      && node !in s.spaces[pid].nodes
    ensures TableInv(Hang(s, pid, node, p))
  {
    var s' := Hang(s, pid, node, p);
    forall q, m | q in s'.spaces && m in s'.spaces[q].nodes
      ensures s'.spaces[q].nodes[m] < |s'.use| && s'.use[s'.spaces[q].nodes[m]] == Table(q, m)
    {
      if (q, m) != (pid, node) {
        assert s'.spaces[q].nodes[m] == s.spaces[q].nodes[m];
        assert s.use[s.spaces[q].nodes[m]] == Table(q, m);
      }
    }
  }

  // Leaves stay as they are when only nodes, sizes and unmapped pages change.
  ghost predicate LeavesAside(s: Vm, s': Vm) {
    && Sized(s) && Sized(s') && |s.use| == |s'.use|
    && s.spaces.Keys <= s'.spaces.Keys
    && (forall pid :: pid in s.spaces ==> s'.spaces[pid].leaves == s.spaces[pid].leaves)
    && (forall pid :: pid in s'.spaces && pid !in s.spaces ==> s'.spaces[pid].leaves == map[])
    && (forall p :: 0 <= p < |s.use| && s'.use[p] != s.use[p] ==> !s.use[p].Data? && !s'.use[p].Data?)
    && (forall p :: 0 <= p < |s.use| && s.use[p].Data? ==> s'.mem[p] == s.mem[p] && s'.refs[p] == s.refs[p])
  }

  lemma LeavesKept(s: Vm, s': Vm)
    requires LeavesAside(s, s') && LeafInv(s)
    ensures LeafInv(s')
  {
    forall pid, v | pid in s'.spaces && v in s'.spaces[pid].leaves
      ensures s'.spaces[pid].leaves[v].ppn < |s'.use| && s'.use[s'.spaces[pid].leaves[v].ppn].Data?
      ensures (pid, v) in s'.use[s'.spaces[pid].leaves[v].ppn].mappers
    {
      assert pid in s.spaces && s.use[s.spaces[pid].leaves[v].ppn].Data?;
    }
    forall p, pid, v | 0 <= p < |s'.use| && s'.use[p].Data? && (pid, v) in s'.use[p].mappers
      ensures pid in s'.spaces && v in s'.spaces[pid].leaves && s'.spaces[pid].leaves[v].ppn == p
    {
      assert s'.use[p] == s.use[p];
    }
  }

  lemma WritesKept(s: Vm, s': Vm)
    requires LeavesAside(s, s') && LeafInv(s) && LeafInv(s') && WriteInv(s)
    ensures WriteInv(s')
  {
    forall pid, v | pid in s'.spaces && v in s'.spaces[pid].leaves
      ensures pid in s.spaces && s'.spaces[pid].leaves[v] == s.spaces[pid].leaves[v]
      ensures s'.refs[s'.spaces[pid].leaves[v].ppn] == s.refs[s.spaces[pid].leaves[v].ppn]
    {
      assert s.use[s.spaces[pid].leaves[v].ppn].Data?;
    }
  }

  // What a process without changed leaves sees.
  lemma ViewsKept(s: Vm, s': Vm, pid: Pid)
    requires LeavesAside(s, s') && LeafInv(s) && LeafInv(s') && pid in s.spaces
    ensures Abs(s')[pid] == Image(s'.spaces[pid].sz, Abs(s)[pid].pages)
  {
    AbsAt(s, pid);
    AbsAt(s', pid);
    forall v | v in s.spaces[pid].leaves
      ensures Seen(s'.mem, s'.spaces[pid].leaves[v]) == Seen(s.mem, s.spaces[pid].leaves[v])
    {
      assert s.use[s.spaces[pid].leaves[v].ppn].Data?;
    }
    assert Abs(s')[pid].pages == Abs(s)[pid].pages;
  }

  lemma AllViewsKept(s: Vm, s': Vm)
    requires LeavesAside(s, s') && LeafInv(s) && LeafInv(s') && s'.spaces.Keys == s.spaces.Keys
    requires forall pid :: pid in s.spaces ==> s'.spaces[pid].sz == s.spaces[pid].sz
    ensures Abs(s') == Abs(s)
  {
    forall pid | pid in s.spaces ensures Abs(s')[pid] == Abs(s)[pid] {
      ViewsKept(s, s', pid);
      AbsAt(s, pid);
    }
  }

  lemma HangRest(s: Vm, pid: Pid, node: Node, p: nat)
    requires Sized(s) && CountInv(s) && PathInv(s) && pid in s.spaces && p < |s.use| && s.use[p] == Held
    requires node !in s.spaces[pid].nodes
    ensures CountInv(Hang(s, pid, node, p)) && PathInv(Hang(s, pid, node, p)) && LeavesAside(s, Hang(s, pid, node, p))
  {
  }

  lemma HangKeeps(s: Vm, pid: Pid, node: Node, p: nat)
    requires Inv(s) && pid in s.spaces && p < |s.use| && s.use[p] == Held && node !in s.spaces[pid].nodes
    ensures Inv(Hang(s, pid, node, p)) && Abs(Hang(s, pid, node, p)) == Abs(s)
  {
    hide FreeInv, TableInv, CountInv, LeafInv, WriteInv, PathInv, Abs, LeavesAside;
    var s' := Hang(s, pid, node, p);
    HangTables(s, pid, node, p);
    HangRest(s, pid, node, p);
    FreeKept(s, s');
    LeavesKept(s, s');
    WritesKept(s, s');
    AllViewsKept(s, s');
  }

  /** uvmcreate: a zeroed page becomes the root of an empty table. */
  ghost function Create(s: Vm, pid: Pid, p: nat): (t: Vm)
    requires Sized(s) && p < |s.use|
    ensures Sized(t) && |t.use| == |s.use|
  {
    s.(mem := s.mem[p := Filled(0)], spaces := s.spaces[pid := Space(map[Root := p], map[], 0)],
      use := s.use[p := Table(pid, Root)])
  }

  lemma CreateTables(s: Vm, pid: Pid, p: nat)
    requires Sized(s) && TableInv(s) && pid !in s.spaces && p < |s.use| && s.use[p] == Held
    ensures TableInv(Create(s, pid, p))
  {
    var s' := Create(s, pid, p);
    forall q, m | q in s'.spaces && m in s'.spaces[q].nodes
      ensures s'.spaces[q].nodes[m] < |s'.use| && s'.use[s'.spaces[q].nodes[m]] == Table(q, m)
    {
      if q != pid {
        assert s.use[s.spaces[q].nodes[m]] == Table(q, m);
      }
    }
  }

  lemma CreateRest(s: Vm, pid: Pid, p: nat)
    requires Sized(s) && CountInv(s) && PathInv(s) && pid !in s.spaces && p < |s.use| && s.use[p] == Held
    ensures CountInv(Create(s, pid, p)) && PathInv(Create(s, pid, p)) && LeavesAside(s, Create(s, pid, p))
  {
  }

  lemma CreateAbs(s: Vm, pid: Pid, p: nat)
    requires Sized(s) && p < |s.use| && pid !in s.spaces
    requires LeavesAside(s, Create(s, pid, p)) && LeafInv(s) && LeafInv(Create(s, pid, p))
    ensures Abs(Create(s, pid, p)) == Abs(s)[pid := Image(0, map[])]
  {
    var s' := Create(s, pid, p);
    forall q | q in s.spaces ensures Abs(s')[q] == Abs(s)[q] {
      ViewsKept(s, s', q);
      AbsAt(s, q);
    }
    AbsAt(s', pid);
    assert Abs(s')[pid].pages == map[];
  }

  lemma CreateKeeps(s: Vm, pid: Pid, p: nat)
    requires Inv(s) && pid !in s.spaces && p < |s.use| && s.use[p] == Held
    ensures Inv(Create(s, pid, p)) && Abs(Create(s, pid, p)) == Abs(s)[pid := Image(0, map[])]
  {
    hide FreeInv, TableInv, CountInv, LeafInv, WriteInv, PathInv, Abs, LeavesAside;
    var s' := Create(s, pid, p);
    CreateTables(s, pid, p);
    CreateRest(s, pid, p);
    FreeKept(s, s');
    LeavesKept(s, s');
    WritesKept(s, s');
    CreateAbs(s, pid, p);
  }

  /** freewalk of one table below the root. */
  ghost function Unhang(s: Vm, pid: Pid, node: Node): (t: Vm)
    requires Sized(s) && pid in s.spaces && node in s.spaces[pid].nodes && s.spaces[pid].nodes[node] < |s.use|
    ensures Sized(t) && |t.use| == |s.use|
  {
    var sp, p := s.spaces[pid], s.spaces[pid].nodes[node];
    s.(freelist := [p] + s.freelist, mem := s.mem[p := Filled(1)],
       spaces := s.spaces[pid := sp.(nodes := sp.nodes - {node})], use := s.use[p := Free])
  }

  lemma UnhangTables(s: Vm, pid: Pid, node: Node, p: nat)
    requires Sized(s) && TableInv(s) && pid in s.spaces && node in s.spaces[pid].nodes && p == s.spaces[pid].nodes[node]
    requires p < |s.use| && s.use[p] == Table(pid, node)
    ensures TableInv(Unhang(s, pid, node))
  {
    var s' := Unhang(s, pid, node);
    forall q, m | q in s'.spaces && m in s'.spaces[q].nodes
      ensures s'.spaces[q].nodes[m] < |s'.use| && s'.use[s'.spaces[q].nodes[m]] == Table(q, m)
    {
      assert s'.spaces[q].nodes[m] == s.spaces[q].nodes[m] && (q, m) != (pid, node);
      assert s.use[s.spaces[q].nodes[m]] == Table(q, m);
    }
  }

  lemma UnhangRest(s: Vm, pid: Pid, node: Node, p: nat)
    requires Sized(s) && CountInv(s) && PathInv(s) && pid in s.spaces && node in s.spaces[pid].nodes
    requires p == s.spaces[pid].nodes[node] && p < |s.use| && s.use[p] == Table(pid, node)
    requires node != Root && s.spaces[pid].leaves == map[]
    ensures CountInv(Unhang(s, pid, node)) && PathInv(Unhang(s, pid, node)) && LeavesAside(s, Unhang(s, pid, node))
  {
  }

  lemma UnhangKeeps(s: Vm, pid: Pid, node: Node)
    requires Inv(s) && pid in s.spaces && node in s.spaces[pid].nodes && node != Root && s.spaces[pid].leaves == map[]
    ensures s.spaces[pid].nodes[node] < |s.use| && Inv(Unhang(s, pid, node)) && Abs(Unhang(s, pid, node)) == Abs(s)
  {
    hide FreeInv, TableInv, CountInv, LeafInv, WriteInv, PathInv, Abs, LeavesAside;
    var p := s.spaces[pid].nodes[node];
    TableOwned(s, pid, node);
    var s' := Unhang(s, pid, node);
    UnhangTables(s, pid, node, p);
    UnhangRest(s, pid, node, p);
    FreedKeeps(s, s', p);
    LeavesKept(s, s');
    WritesKept(s, s');
    AllViewsKept(s, s');
  }

  lemma TableOwned(s: Vm, pid: Pid, node: Node)
    requires Sized(s) && TableInv(s) && pid in s.spaces && node in s.spaces[pid].nodes
    ensures s.spaces[pid].nodes[node] < |s.use| && s.use[s.spaces[pid].nodes[node]] == Table(pid, node)
  {
  }

  /** The last kfree of freewalk: the root goes, and with it the process's address space. */
  ghost function Bury(s: Vm, pid: Pid, p: nat): (t: Vm)
    requires Sized(s) && p < |s.use|
    ensures Sized(t) && |t.use| == |s.use|
  {
    s.(freelist := [p] + s.freelist, mem := s.mem[p := Filled(1)], spaces := s.spaces - {pid}, use := s.use[p := Free])
  }

  lemma BuryTables(s: Vm, pid: Pid, p: nat)
    requires Sized(s) && TableInv(s) && CountInv(s) && PathInv(s) && pid in s.spaces
      && s.spaces[pid].nodes == map[Root := p]
    requires p < |s.use| && s.use[p] == Table(pid, Root)
    ensures TableInv(Bury(s, pid, p))
  {
    hide CountInv, PathInv;
    var s' := Bury(s, pid, p);
    forall q, m | q in s'.spaces && m in s'.spaces[q].nodes
      ensures s'.spaces[q].nodes[m] < |s'.use| && s'.use[s'.spaces[q].nodes[m]] == Table(q, m)
    {
      assert s.use[s.spaces[q].nodes[m]] == Table(q, m);
    }
    forall r | 0 <= r < |s'.use| && s'.use[r].Table?
      ensures s'.use[r].pid in s'.spaces && s'.use[r].node in s'.spaces[s'.use[r].pid].nodes
      ensures s'.spaces[s'.use[r].pid].nodes[s'.use[r].node] == r
    {
      assert s'.use[r] == s.use[r];
    }
  }

  lemma BuryCounts(s: Vm, pid: Pid, p: nat)
    requires Sized(s) && CountInv(s) && PathInv(s) && pid in s.spaces && p < |s.use| && s.use[p] == Table(pid, Root)
    ensures CountInv(Bury(s, pid, p)) && PathInv(Bury(s, pid, p))
  {
  }

  lemma BuryLeaves(s: Vm, pid: Pid, p: nat)
    requires Sized(s) && LeafInv(s) && WriteInv(s) && pid in s.spaces && s.spaces[pid].leaves == map[]
    requires p < |s.use| && s.use[p].Table?
    ensures LeafInv(Bury(s, pid, p)) && WriteInv(Bury(s, pid, p)) && Abs(Bury(s, pid, p)) == Abs(s) - {pid}
  {
    var s' := Bury(s, pid, p);
    forall q, v | q in s'.spaces && v in s'.spaces[q].leaves
      ensures s'.use[s'.spaces[q].leaves[v].ppn] == s.use[s.spaces[q].leaves[v].ppn]
      ensures s'.mem[s'.spaces[q].leaves[v].ppn] == s.mem[s.spaces[q].leaves[v].ppn]
    {
      assert s.use[s.spaces[q].leaves[v].ppn].Data?;
    }
    forall q | q in s'.spaces ensures ImageOf(s'.mem, s'.spaces[q]) == ImageOf(s.mem, s.spaces[q]) {
      assert ImageOf(s'.mem, s'.spaces[q]).pages == ImageOf(s.mem, s.spaces[q]).pages;
    }
  }

  lemma BuryKeeps(s: Vm, pid: Pid)
    requires Inv(s) && pid in s.spaces && s.spaces[pid].leaves == map[] && s.spaces[pid].nodes.Keys == {Root}
    ensures var p := s.spaces[pid].nodes[Root];
      p < |s.use| && Inv(Bury(s, pid, p)) && Abs(Bury(s, pid, p)) == Abs(s) - {pid}
  {
    hide FreeInv, TableInv, CountInv, LeafInv, WriteInv, PathInv, Abs;
    var p := s.spaces[pid].nodes[Root];
    TableOwned(s, pid, Root);
    assert s.spaces[pid].nodes == map[Root := p];
    FreedKeeps(s, Bury(s, pid, p), p);
    BuryTables(s, pid, p);
    BuryCounts(s, pid, p);
    BuryLeaves(s, pid, p);
  }

  /** p->sz = sz. */
  ghost function Resize(s: Vm, pid: Pid, sz: nat): (t: Vm)
    requires Sized(s) && pid in s.spaces
    ensures Sized(t) && |t.use| == |s.use|
  {
    s.(spaces := s.spaces[pid := s.spaces[pid].(sz := sz)])
  }

  lemma ResizeRest(s: Vm, pid: Pid, sz: nat)
    requires Sized(s) && CountInv(s) && PathInv(s) && pid in s.spaces
    ensures CountInv(Resize(s, pid, sz)) && PathInv(Resize(s, pid, sz))
    ensures LeavesAside(s, Resize(s, pid, sz)) && SameTables(s, Resize(s, pid, sz))
  {
  }

  lemma ResizeKeeps(s: Vm, pid: Pid, sz: nat)
    requires Inv(s) && pid in s.spaces
    ensures Inv(Resize(s, pid, sz))
    ensures Abs(Resize(s, pid, sz)) == Abs(s)[pid := Image(sz, Abs(s)[pid].pages)]
  {
    hide FreeInv, TableInv, CountInv, LeafInv, WriteInv, PathInv, LeavesAside, SameTables, Abs;
    var s' := Resize(s, pid, sz);
    ResizeRest(s, pid, sz);
    TablesKept(s, s');
    FreeKept(s, s');
    LeavesKept(s, s');
    WritesKept(s, s');
    ResizeImage(s, pid, sz);
  }

  lemma ResizeImage(s: Vm, pid: Pid, sz: nat)
    requires Inv(s) && pid in s.spaces && LeavesAside(s, Resize(s, pid, sz)) && LeafInv(Resize(s, pid, sz))
    ensures Abs(Resize(s, pid, sz)) == Abs(s)[pid := Image(sz, Abs(s)[pid].pages)]
  {
    hide FreeInv, TableInv, CountInv, LeafInv, WriteInv, PathInv, LeavesAside, ImageOf;
    var s' := Resize(s, pid, sz);
    forall q | q in s.spaces ensures Abs(s')[q] == Image(s'.spaces[q].sz, Abs(s)[q].pages) {
      ViewsKept(s, s', q);
    }
    forall q | q in s.spaces && q != pid ensures Abs(s')[q] == Abs(s)[q] {
      ImageSize(s, q);
    }
  }

  lemma ImageSize(s: Vm, pid: Pid)
    requires Sized(s) && LeafInv(s) && pid in s.spaces
    ensures Abs(s)[pid].sz == s.spaces[pid].sz
  {
  }

  // ---- what the invariant says about counts, free pages and sharing

  // The user leaf entries that map page p.
  ghost function LeavesOn(s: Vm, p: nat): set<(Pid, nat)> {
    set pid, v | pid in s.spaces && v in s.spaces[pid].leaves && s.spaces[pid].leaves[v].ppn == p :: (pid, v)
  }

  lemma MappersAreLeaves(s: Vm, p: nat)
    requires Sized(s) && LeafInv(s) && p < |s.use|
    ensures LeavesOn(s, p) == Mappers(s.use[p])
  {
    forall x | x in Mappers(s.use[p]) ensures x in LeavesOn(s, p) {
      assert (x.0, x.1) in s.use[p].mappers;
    }
  }

  /** The count of a mapped page is the number of entries that map it. */
  lemma CountIsLeaves(s: Vm, p: nat)
    requires Inv(s) && p < |s.use| && LeavesOn(s, p) != {}
    ensures s.refs[p] == |LeavesOn(s, p)|
  {
    hide FreeInv, TableInv, WriteInv, PathInv, LeafInv;
    MappersAreLeaves(s, p);
  }

  // Entry v of pid maps page p.
  ghost predicate Maps(s: Vm, pid: Pid, v: nat, p: nat) {
    pid in s.spaces && v in s.spaces[pid].leaves && s.spaces[pid].leaves[v].ppn == p
  }

  // Everything is mapped where it was, but for pages lo .. hi of pid.
  ghost predicate SameBut(s: Vm, t: Vm, pid: Pid, lo: nat, hi: nat) {
    && |t.use| == |s.use| && |t.refs| == |s.refs|
    && forall q: Pid, v: nat, p: nat :: !(q == pid && lo <= v < hi) ==> (Maps(s, q, v, p) <==> Maps(t, q, v, p))
  }

  /** Then, with none of those pages mapped before or after, every count is as it was. */
  lemma SameCount(s: Vm, t: Vm, pid: Pid, lo: nat, hi: nat, p: nat)
    requires Inv(s) && Inv(t) && SameBut(s, t, pid, lo, hi) && p < |s.use|
    requires forall v: nat, q: nat :: lo <= v < hi ==> !Maps(s, pid, v, q) && !Maps(t, pid, v, q)
    ensures LeavesOn(t, p) == LeavesOn(s, p) && (LeavesOn(s, p) != {} ==> t.refs[p] == s.refs[p])
  {
    hide Inv;
    assert forall q: Pid, v: nat :: (q, v) in LeavesOn(s, p) <==> Maps(s, q, v, p);
    assert forall q: Pid, v: nat :: (q, v) in LeavesOn(t, p) <==> Maps(t, q, v, p);
    if LeavesOn(s, p) != {} {
      CountIsLeaves(s, p);
      CountIsLeaves(t, p);
    }
  }

  // Every page is mapped by the same entries as before, and counted the same.
  ghost predicate RolledBack(s: Vm, t: Vm) {
    && |t.use| == |s.use| && |s.refs| == |t.refs| == |s.use|
    && forall p: nat :: p < |s.use| ==>
       LeavesOn(t, p) == LeavesOn(s, p) && (LeavesOn(s, p) != {} ==> t.refs[p] == s.refs[p])
  }

  lemma Restored(s: Vm, t: Vm, pid: Pid, lo: nat, hi: nat)
    requires Inv(s) && Inv(t) && SameBut(s, t, pid, lo, hi)
    requires forall v: nat, q: nat :: lo <= v < hi ==> !Maps(s, pid, v, q) && !Maps(t, pid, v, q)
    ensures RolledBack(s, t)
  {
    hide FreeInv, TableInv, LeafInv, CountInv, WriteInv, PathInv, LeavesOn, SameBut;
    SameSize(s, t, pid, lo, hi);
    forall p: nat | p < |s.use| ensures LeavesOn(t, p) == LeavesOn(s, p)
      && (LeavesOn(s, p) != {} ==> t.refs[p] == s.refs[p])
    {
      SameCount(s, t, pid, lo, hi, p);
    }
  }

  lemma SameSize(s: Vm, t: Vm, pid: Pid, lo: nat, hi: nat)
    requires SameBut(s, t, pid, lo, hi)
    ensures |t.use| == |s.use| && |t.refs| == |s.refs|
  {
  }

  // The pages a kernel path has taken and not yet put to use.
  ghost function Holding(use: seq<Use>): set<nat> {
    set p: nat | p < |use| && use[p].Held?
  }

  lemma HoldingWith(use: seq<Use>, p: nat, u: Use)
    requires p < |use|
    ensures p in Holding(use) <==> use[p].Held?
    ensures Holding(use[p := u]) == Holding(use) - {p} + if u.Held? then {p} else {}
  {
  }

  // A page-table page of some process.
  ghost predicate IsTable(s: Vm, p: nat) {
    exists pid, node :: pid in s.spaces && node in s.spaces[pid].nodes && s.spaces[pid].nodes[node] == p
  }

  /**
   Every page is free, or mapped, or one table, or in the kernel's hands: never two of
   these, and free ones are listed once.
   */
  lemma PagesPartition(s: Vm, p: nat)
    requires Inv(s) && p < |s.use|
    ensures p in s.freelist <==> LeavesOn(s, p) == {} && !IsTable(s, p) && s.use[p] != Held
    ensures LeavesOn(s, p) != {} ==> !IsTable(s, p)
    ensures p in s.freelist ==> multiset(s.freelist)[p] == 1
  {
    hide CountInv, WriteInv, PathInv, LeafInv;
    MappersAreLeaves(s, p);
    TableUse(s, p);
    if s.use[p].Data? {
      DataMapped(s, p);
    }
    if p in s.freelist {
      OnceListed(s.freelist, p);
    }
  }

  /** When no kernel path holds a page, none is lost: each is listed, or mapped, or a table. */
  lemma NoneLost(s: Vm, p: nat)
    requires Inv(s) && p < |s.use| && Holding(s.use) == {}
    ensures p in s.freelist <==> LeavesOn(s, p) == {} && !IsTable(s, p)
  {
    hide Inv;
    HoldingWith(s.use, p, s.use[p]);
    PagesPartition(s, p);
  }

  lemma TableUse(s: Vm, p: nat)
    requires Sized(s) && TableInv(s) && p < |s.use|
    ensures IsTable(s, p) <==> s.use[p].Table?
  {
  }

  lemma DataMapped(s: Vm, p: nat)
    requires Inv(s) && p < |s.use| && s.use[p].Data?
    ensures Mappers(s.use[p]) != {}
  {
  }

  lemma {:induction false} OnceListed(list: seq<nat>, p: nat)
    requires p in list && forall j, k :: 0 <= j < k < |list| ==> list[j] != list[k]
    ensures multiset(list)[p] == 1
  {
    assert list == [list[0]] + list[1..];
    if list[0] == p {
      assert p !in list[1..];
    } else {
      OnceListed(list[1..], p);
    }
  }

  /** An entry with PTE_W set is the only entry on its page. */
  lemma WritableIsAlone(s: Vm, pid: Pid, v: nat)
    requires Inv(s) && pid in s.spaces && v in s.spaces[pid].leaves && s.spaces[pid].leaves[v].w
    ensures LeavesOn(s, s.spaces[pid].leaves[v].ppn) == {(pid, v)}
  {
    hide FreeInv, TableInv, PathInv;
    LeafMapped(s, pid, v);
    LastMapper(s, pid, v);
    MappersAreLeaves(s, s.spaces[pid].leaves[v].ppn);
  }
}
