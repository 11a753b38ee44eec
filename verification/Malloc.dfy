/**
 The storage allocator of user/umalloc.c (section 8.7 of The C Programming
 Language): a circular, address-ordered free list threaded through block
 headers.  Addresses and sizes count units of one header.
 */
module Malloc {
  import opened Common

  const HEADER: nat := 16          // sizeof(Header)
  const MINCORE: nat := 4096       // morecore's smallest request, in units
  const INT_LIMIT: nat := 0x8000_0000

  // Each block on the list links to the next one, the last to the first.
  ghost predicate Links(ring: seq<nat>, ptr: map<nat, nat>) {
    forall i {:trigger ring[i]} :: 0 <= i < |ring| ==>
      ring[i] in ptr && ptr[ring[i]] == if i + 1 < |ring| then ring[i + 1] else ring[0]
  }

  // In address order, with a gap after each block: no two of them touch.
  ghost predicate Gaps(ring: seq<nat>, size: map<nat, nat>) {
    && (forall i :: 0 <= i < |ring| ==> ring[i] in size)
    && (forall i {:trigger ring[i]} :: 0 <= i < |ring| - 1 ==> ring[i] + size[ring[i]] < ring[i + 1])
  }

  ghost predicate Apart(a: nat, n: nat, b: nat, m: nat) {
    a + n <= b || b + m <= a
  }

  // Blocks in use keep their size in their header and overlap nothing.
  ghost predicate LiveOk(ring: seq<nat>, size: map<nat, nat>, live: map<nat, nat>, base: nat) {
    && (forall a :: a in live ==> a in size && size[a] == live[a] > 0 && base < a)
    && (forall a, b :: a in live && b in live && a != b ==> Apart(a, live[a], b, live[b]))
    && (forall a, i :: a in live && 0 < i < |ring| && ring[i] in size ==> Apart(a, live[a], ring[i], size[ring[i]]))
  }

  ghost predicate RingOk(ring: seq<nat>, ptr: map<nat, nat>, size: map<nat, nat>, base: nat) {
    && |ring| > 0 && ring[0] == base && Links(ring, ptr) && Gaps(ring, size) && size[base] == 0
    && (forall i :: 0 < i < |ring| ==> size[ring[i]] > 0)
  }

  lemma {:induction false} Ascending(ring: seq<nat>, size: map<nat, nat>, i: nat, j: nat)
    requires Gaps(ring, size) && i < j < |ring|
    ensures ring[i] + size[ring[i]] < ring[j]
    decreases j
  {
    if i + 1 < j {
      Ascending(ring, size, i, j - 1);
      assert ring[j - 1] + size[ring[j - 1]] < ring[j];
    }
  }

  // ---- putting a block back

  // The place of block bp on the list: behind ring[k].
  ghost predicate Place(ring: seq<nat>, bp: nat, k: nat) {
    k < |ring| && ring[k] < bp && (k + 1 < |ring| ==> bp < ring[k + 1])
  }

  ghost predicate TouchesNext(ring: seq<nat>, bp: nat, n: nat, k: nat) {
    k + 1 < |ring| && bp + n == ring[k + 1]
  }

  ghost predicate TouchesPrev(ring: seq<nat>, size: map<nat, nat>, bp: nat, k: nat) {
    k < |ring| && ring[k] in size && ring[k] + size[ring[k]] == bp
  }

  // What follows bp on the list: its upper neighbour is skipped when they become one block.
  ghost function Rest(ring: seq<nat>, k: nat, up: bool): seq<nat>
    requires k < |ring| && (up ==> k + 1 < |ring|)
  {
    if up then ring[k + 2..] else ring[k + 1..]
  }

  // The list after free: with `up` joined to the block above, with `down` to the block below.
  ghost function FreedRing(ring: seq<nat>, bp: nat, k: nat, up: bool, down: bool): seq<nat>
    requires k < |ring| && (up ==> k + 1 < |ring|)
  {
    ring[..k + 1] + (if down then [] else [bp]) + Rest(ring, k, up)
  }

  ghost function FreedSize(ring: seq<nat>, size: map<nat, nat>, bp: nat, n: nat, k: nat, up: bool, down: bool): map<nat,
    nat>
    requires k < |ring| && ring[k] in size && (up ==> k + 1 < |ring| && ring[k + 1] in size)
  {
    var whole := if up then n + size[ring[k + 1]] else n;
    var size1 := size[bp := whole];
    if down then size1[ring[k] := size1[ring[k]] + whole] else size1
  }

  ghost function FreedPtr(ring: seq<nat>, ptr: map<nat, nat>, bp: nat, k: nat, up: bool, down: bool): map<nat, nat>
    requires k < |ring| && ring[k] in ptr && (up ==> k + 1 < |ring| && ring[k + 1] in ptr)
  {
    var onward := if up then ptr[ring[k + 1]] else ptr[ring[k]];
    ptr[bp := onward][ring[k] := if down then onward else bp]
  }

  lemma FreedAt(ring: seq<nat>, bp: nat, k: nat, up: bool, down: bool, i: nat)
    requires k < |ring| && (up ==> k + 1 < |ring|)
    ensures var ring', shift, skip := FreedRing(ring, bp, k, up, down), if down then 0 else 1, if up then 1 else 0;
      && |ring'| == |ring| + shift - skip
      && (i < |ring'| ==>
         ring'[i] == if i <= k then ring[i] else if i < k + 1 + shift then bp else ring[i - shift + skip])
  {
  }

  // Blocks on the list other than ring[k] are neither it nor bp.
  lemma Elsewhere(ring: seq<nat>, size: map<nat, nat>, bp: nat, k: nat, i: nat)
    requires Gaps(ring, size) && Place(ring, bp, k) && i < |ring| && i != k
    ensures ring[i] != ring[k] && ring[i] != bp && (i > k ==> ring[i] > bp) && (i < k ==> ring[i] < bp)
  {
    if i < k {
      Ascending(ring, size, i, k);
    } else if i > k + 1 {
      Ascending(ring, size, k + 1, i);
    }
  }

  lemma LinkAt(ring: seq<nat>, ptr: map<nat, nat>, i: nat)
    requires Links(ring, ptr)
    ensures i < |ring| ==> ring[i] in ptr && ptr[ring[i]] == if i + 1 < |ring| then ring[i + 1] else ring[0]
  {
  }

  lemma FreedLinkAt(ring: seq<nat>, ptr: map<nat, nat>, size: map<nat, nat>, bp: nat, k: nat, up: bool, down: bool,
                    i: nat)
    requires Links(ring, ptr) && Gaps(ring, size) && Place(ring, bp, k) && (up ==> k + 1 < |ring|)
    requires i < |FreedRing(ring, bp, k, up, down)|
    ensures var ring', ptr' := FreedRing(ring, bp, k, up, down), FreedPtr(ring, ptr, bp, k, up, down);
      ring'[i] in ptr' && ptr'[ring'[i]] == if i + 1 < |ring'| then ring'[i + 1] else ring'[0]
  {
    hide FreedRing, Gaps, Links;
    FreedAt(ring, bp, k, up, down, i);
    FreedAt(ring, bp, k, up, down, i + 1);
    FreedAt(ring, bp, k, up, down, 0);
    LinkAt(ring, ptr, k);
    LinkAt(ring, ptr, k + 1);
    var shift, skip := if down then 0 else 1, if up then 1 else 0;
    if i < k {
      Elsewhere(ring, size, bp, k, i);
      LinkAt(ring, ptr, i);
    } else if i >= k + 1 + shift {
      Elsewhere(ring, size, bp, k, i - shift + skip);
      LinkAt(ring, ptr, i - shift + skip);
    }
  }

  lemma FreedLinks(ring: seq<nat>, ptr: map<nat, nat>, size: map<nat, nat>, bp: nat, k: nat, up: bool, down: bool)
    requires Links(ring, ptr) && Gaps(ring, size) && Place(ring, bp, k) && (up ==> k + 1 < |ring|)
    ensures Links(FreedRing(ring, bp, k, up, down), FreedPtr(ring, ptr, bp, k, up, down))
  {
    hide Gaps, FreedRing;
    var ring', ptr' := FreedRing(ring, bp, k, up, down), FreedPtr(ring, ptr, bp, k, up, down);
    forall i {:trigger ring'[i]} | 0 <= i < |ring'|
      ensures ring'[i] in ptr' && ptr'[ring'[i]] == if i + 1 < |ring'| then ring'[i + 1] else ring'[0]
    {
      FreedLinkAt(ring, ptr, size, bp, k, up, down, i);
    }
  }

  lemma GapAt(ring: seq<nat>, size: map<nat, nat>, i: int)
    requires Gaps(ring, size)
    ensures 0 <= i < |ring| ==> ring[i] in size
    ensures 0 <= i < |ring| - 1 ==> ring[i] + size[ring[i]] < ring[i + 1]
  {
  }

  lemma FreedGapAt(ring: seq<nat>, size: map<nat, nat>, bp: nat, n: nat, k: nat, i: nat)
    requires Gaps(ring, size) && Place(ring, bp, k)
    requires ring[k] + size[ring[k]] <= bp && (k + 1 < |ring| ==> bp + n <= ring[k + 1])
    requires var up, down := TouchesNext(ring, bp, n, k), TouchesPrev(ring, size, bp, k);
      i < |FreedRing(ring, bp, k, up, down)|
    ensures var up, down := TouchesNext(ring, bp, n, k), TouchesPrev(ring, size, bp, k);
      var ring', size' := FreedRing(ring, bp, k, up, down), FreedSize(ring, size, bp, n, k, up, down);
      ring'[i] in size' && (i + 1 < |ring'| ==> ring'[i] + size'[ring'[i]] < ring'[i + 1])
  {
    hide FreedRing, FreedSize, Gaps;
    var up, down := TouchesNext(ring, bp, n, k), TouchesPrev(ring, size, bp, k);
    FreedSizeAt(ring, size, bp, n, k, up, down, i);
    FreedAt(ring, bp, k, up, down, i);
    FreedAt(ring, bp, k, up, down, i + 1);
    GapAt(ring, size, i);
    GapAt(ring, size, k + 1);
    GapAt(ring, size, i - (if down then 0 else 1) + (if up then 1 else 0));
  }

  lemma FreedGaps(ring: seq<nat>, size: map<nat, nat>, bp: nat, n: nat, k: nat)
    requires Gaps(ring, size) && Place(ring, bp, k)
    requires ring[k] + size[ring[k]] <= bp && (k + 1 < |ring| ==> bp + n <= ring[k + 1])
    ensures var up, down := TouchesNext(ring, bp, n, k), TouchesPrev(ring, size, bp, k);
      Gaps(FreedRing(ring, bp, k, up, down), FreedSize(ring, size, bp, n, k, up, down))
  {
    hide FreedRing, FreedSize;
    var up, down := TouchesNext(ring, bp, n, k), TouchesPrev(ring, size, bp, k);
    var ring', size' := FreedRing(ring, bp, k, up, down), FreedSize(ring, size, bp, n, k, up, down);
    forall i | 0 <= i < |ring'| ensures ring'[i] in size'
      && (i + 1 < |ring'| ==> ring'[i] + size'[ring'[i]] < ring'[i + 1])
    {
      FreedGapAt(ring, size, bp, n, k, i);
    }
  }

  // ---- units

  ghost function SumFree(ring: seq<nat>, size: map<nat, nat>): nat
    requires forall i :: 0 <= i < |ring| ==> ring[i] in size
  {
    if ring == [] then 0 else SumFree(ring[..|ring| - 1], size) + size[ring[|ring| - 1]]
  }

  ghost function SumLive(live: map<nat, nat>): nat {
    if live == map[] then 0
    else
      var a :| a in live;
      live[a] + SumLive(live - {a})
  }

  lemma {:induction false} SumLiveWithout(live: map<nat, nat>, a: nat)
    requires a in live
    ensures SumLive(live) == live[a] + SumLive(live - {a})
    decreases |live|
  {
    var b :| b in live && SumLive(live) == live[b] + SumLive(live - {b});
    if b != a {
      SumLiveWithout(live - {b}, a);
      SumLiveWithout(live - {a}, b);
      assert live - {b} - {a} == live - {a} - {b};
    }
  }

  lemma SumLiveWith(live: map<nat, nat>, a: nat, n: nat)
    requires a !in live
    ensures SumLive(live[a := n]) == SumLive(live) + n
  {
    SumLiveWithout(live[a := n], a);
    assert live[a := n] - {a} == live;
  }

  lemma {:induction false} SumFreeSplit(a: seq<nat>, b: seq<nat>, size: map<nat, nat>)
    requires forall i :: 0 <= i < |a| ==> a[i] in size
    requires forall i :: 0 <= i < |b| ==> b[i] in size
    ensures forall i :: 0 <= i < |a + b| ==> (a + b)[i] in size
    ensures SumFree(a + b, size) == SumFree(a, size) + SumFree(b, size)
  {
    if b == [] {
      assert a + b == a;
    } else {
      SumFreeSplit(a, b[..|b| - 1], size);
      assert (a + b)[..|a + b| - 1] == a + b[..|b| - 1];
    }
  }

  lemma {:induction false} SumFreeSame(ring: seq<nat>, size: map<nat, nat>, size': map<nat, nat>)
    requires forall i :: 0 <= i < |ring| ==> ring[i] in size && ring[i] in size' && size'[ring[i]] == size[ring[i]]
    ensures SumFree(ring, size') == SumFree(ring, size)
  {
    if ring != [] {
      SumFreeSame(ring[..|ring| - 1], size, size');
    }
  }

  // The units of the list as those before ring[k], its own, and the rest.
  lemma SumFreeAt(ring: seq<nat>, size: map<nat, nat>, k: nat)
    requires k < |ring| && forall i :: 0 <= i < |ring| ==> ring[i] in size
    ensures SumFree(ring, size) == SumFree(ring[..k], size) + size[ring[k]] + SumFree(ring[k + 1..], size)
  {
    assert ring[..k + 1][..k] == ring[..k];
    assert ring == ring[..k + 1] + ring[k + 1..];
    SumFreeSplit(ring[..k + 1], ring[k + 1..], size);
  }

  lemma RestSum(ring: seq<nat>, size: map<nat, nat>, k: nat, up: bool)
    requires k < |ring| && (up ==> k + 1 < |ring|) && forall i :: 0 <= i < |ring| ==> ring[i] in size
    ensures SumFree(ring, size) == SumFree(ring[..k], size) + size[ring[k]] + SumFree(Rest(ring, k, up), size)
      + if up then size[ring[k + 1]] else 0
  {
    SumFreeAt(ring, size, k);
    if up {
      var tail := ring[k + 1..];
      SumFreeAt(tail, size, 0);
      assert tail[..0] == [] && tail[1..] == ring[k + 2..];
    }
  }

  lemma MidSum(x: nat, bp: nat, size: map<nat, nat>, down: bool)
    requires x in size && bp in size
    ensures SumFree([x] + (if down then [] else [bp]), size) == size[x] + if down then 0 else size[bp]
  {
    var one := [x];
    assert one[..0] == [];
    if down {
      assert one + [] == one;
    } else {
      assert [bp][..0] == [];
      SumFreeSplit(one, [bp], size);
    }
  }

  lemma FreedRingSum(ring: seq<nat>, size: map<nat, nat>, bp: nat, k: nat, up: bool, down: bool)
    requires k < |ring| && (up ==> k + 1 < |ring|) && bp in size
    requires forall i :: 0 <= i < |ring| ==> ring[i] in size
    requires var r := FreedRing(ring, bp, k, up, down); forall i :: 0 <= i < |r| ==> r[i] in size
    ensures SumFree(FreedRing(ring, bp, k, up, down), size) ==
      SumFree(ring[..k], size) + size[ring[k]] + (if down then 0 else size[bp]) + SumFree(Rest(ring, k, up), size)
  {
    var before, mid, rest := ring[..k], [ring[k]] + (if down then [] else [bp]), Rest(ring, k, up);
    assert FreedRing(ring, bp, k, up, down) == before + (mid + rest);
    MidSum(ring[k], bp, size, down);
    SumFreeSplit(mid, rest, size);
    SumFreeSplit(before, mid + rest, size);
  }

  lemma FreedSum(ring: seq<nat>, size: map<nat, nat>, bp: nat, n: nat, k: nat, up: bool, down: bool)
    requires Gaps(ring, size) && Place(ring, bp, k) && (up ==> k + 1 < |ring|)
    requires var r := FreedRing(ring, bp, k, up, down);
      forall i :: 0 <= i < |r| ==> r[i] in FreedSize(ring, size, bp, n, k, up, down)
    ensures SumFree(FreedRing(ring, bp, k, up, down), FreedSize(ring, size, bp, n, k, up, down)) ==
      SumFree(ring, size) + n
  {
    hide FreedRing, SumFree, Rest;
    var size' := FreedSize(ring, size, bp, n, k, up, down);
    FreedParts(ring, size, bp, n, k, up, down);
    FreedRingSum(ring, size', bp, k, up, down);
    SumFreeSame(ring[..k], size, size');
    SumFreeSame(Rest(ring, k, up), size, size');
    RestSum(ring, size, k, up);
  }

  lemma FreedParts(ring: seq<nat>, size: map<nat, nat>, bp: nat, n: nat, k: nat, up: bool, down: bool)
    requires Gaps(ring, size) && Place(ring, bp, k) && (up ==> k + 1 < |ring|)
    ensures var size' := FreedSize(ring, size, bp, n, k, up, down);
      && (forall i :: 0 <= i < k ==> ring[..k][i] in size' && size'[ring[..k][i]] == size[ring[..k][i]])
      && (forall i :: 0 <= i < |Rest(ring, k, up)| ==>
        Rest(ring, k, up)[i] in size && Rest(ring, k, up)[i] in size'
          && size'[Rest(ring, k, up)[i]] == size[Rest(ring, k, up)[i]])
  {
    forall i | 0 <= i < k ensures ring[i] != ring[k] && ring[i] != bp {
      Elsewhere(ring, size, bp, k, i);
    }
    forall i | k < i < |ring| ensures ring[i] != ring[k] && ring[i] != bp {
      Elsewhere(ring, size, bp, k, i);
    }
  }

  // ---- the whole heap

  // Every unit ever got from sbrk is in a free block or in a block in use; nothing lies past brk.
  ghost predicate Heap(ring: seq<nat>, ptr: map<nat, nat>, size: map<nat, nat>, live: map<nat, nat>,
                       base: nat, brk: nat, total: nat)
  {
    && RingOk(ring, ptr, size, base) && LiveOk(ring, size, live, base)
    && (forall i :: 0 < i < |ring| ==> ring[i] + size[ring[i]] <= brk)
    && (forall a :: a in live ==> a + live[a] <= brk)
    && SumFree(ring, size) + SumLive(live) == total
  }

  // A block in use lies between its neighbours on the list.
  lemma Between(ring: seq<nat>, size: map<nat, nat>, live: map<nat, nat>, base: nat, bp: nat, k: nat)
    requires Gaps(ring, size) && LiveOk(ring, size, live, base) && |ring| > 0 && ring[0] == base && size[base] == 0
    requires bp in live && Place(ring, bp, k)
    ensures ring[k] + size[ring[k]] <= bp && (k + 1 < |ring| ==> bp + live[bp] <= ring[k + 1])
  {
  }

  lemma FreedSizeAt(ring: seq<nat>, size: map<nat, nat>, bp: nat, n: nat, k: nat, up: bool, down: bool, i: nat)
    requires Gaps(ring, size) && Place(ring, bp, k) && (up ==> k + 1 < |ring|)
    requires i < |FreedRing(ring, bp, k, up, down)|
    ensures var ring', size' := FreedRing(ring, bp, k, up, down), FreedSize(ring, size, bp, n, k, up, down);
      var shift, skip := if down then 0 else 1, if up then 1 else 0;
      var whole := if up then n + size[ring[k + 1]] else n;
      && ring'[i] in size'
      && (i < k ==> ring'[i] == ring[i] && size'[ring'[i]] == size[ring[i]])
      && (i == k ==> ring'[i] == ring[k] && size'[ring'[i]] == size[ring[k]] + if down then whole else 0)
      && (i == k + 1 && !down ==> ring'[i] == bp && size'[ring'[i]] == whole)
      && (i > k + shift ==>
         i - shift + skip < |ring| && ring'[i] == ring[i - shift + skip] && size'[ring'[i]] == size[ring'[i]])
  {
    hide FreedRing, Gaps;
    FreedAt(ring, bp, k, up, down, i);
    GapsIn(ring, size);
    var shift, skip := if down then 0 else 1, if up then 1 else 0;
    if i < k {
      Elsewhere(ring, size, bp, k, i);
    } else if i > k + shift {
      Elsewhere(ring, size, bp, k, i - shift + skip);
    }
  }

  lemma GapsIn(ring: seq<nat>, size: map<nat, nat>)
    requires Gaps(ring, size)
    ensures forall i :: 0 <= i < |ring| ==> ring[i] in size
  {
  }

  lemma NotOnList(ring: seq<nat>, size: map<nat, nat>, live: map<nat, nat>, base: nat, a: nat, i: nat)
    requires |ring| > 0 && ring[0] == base && LiveOk(ring, size, live, base) && a in live && i < |ring|
      && ring[i] in size
    requires i > 0 ==> size[ring[i]] > 0
    ensures a != ring[i]
  {
    assert i > 0 ==> Apart(a, live[a], ring[i], size[ring[i]]);
  }

  // A block in use that is apart from the pieces is apart from the joined block.
  lemma FreedApart(ring: seq<nat>, size: map<nat, nat>, live: map<nat, nat>, base: nat, bp: nat, k: nat, a: nat, i: nat)
    requires |ring| > 0 && ring[0] == base && Gaps(ring, size) && size[base] == 0 && LiveOk(ring, size, live, base)
    requires bp in live && a in live && a != bp && Place(ring, bp, k)
    requires var up, down := TouchesNext(ring, bp, live[bp], k), TouchesPrev(ring, size, bp, k);
      0 < i < |FreedRing(ring, bp, k, up, down)|
    ensures var up, down := TouchesNext(ring, bp, live[bp], k), TouchesPrev(ring, size, bp, k);
      var ring', size' := FreedRing(ring, bp, k, up, down), FreedSize(ring, size, bp, live[bp], k, up, down);
      ring'[i] in size' && Apart(a, live[a], ring'[i], size'[ring'[i]]) && size'[ring'[i]] >= 0
  {
    hide FreedRing, FreedSize;
    var up, down := TouchesNext(ring, bp, live[bp], k), TouchesPrev(ring, size, bp, k);
    FreedSizeAt(ring, size, bp, live[bp], k, up, down, i);
    Between(ring, size, live, base, bp, k);
    assert Apart(a, live[a], bp, live[bp]);
    assert k > 0 ==> Apart(a, live[a], ring[k], size[ring[k]]);
    assert up ==> Apart(a, live[a], ring[k + 1], size[ring[k + 1]]);
  }

  lemma FreedRingOk(ring: seq<nat>, ptr: map<nat, nat>, size: map<nat, nat>, live: map<nat, nat>, base: nat, bp: nat,
                    k: nat)
    requires RingOk(ring, ptr, size, base) && LiveOk(ring, size, live, base) && bp in live && Place(ring, bp, k)
    ensures var up, down := TouchesNext(ring, bp, live[bp], k), TouchesPrev(ring, size, bp, k);
      RingOk(FreedRing(ring, bp, k, up, down), FreedPtr(ring, ptr, bp, k, up, down),
             FreedSize(ring, size, bp, live[bp], k, up, down), base)
  {
    hide Links, Gaps, FreedRing, FreedSize, FreedPtr;
    GapsIn(ring, size);
    var up, down := TouchesNext(ring, bp, live[bp], k), TouchesPrev(ring, size, bp, k);
    var ring', size' := FreedRing(ring, bp, k, up, down), FreedSize(ring, size, bp, live[bp], k, up, down);
    LinksIn(ring, ptr);
    Between(ring, size, live, base, bp, k);
    FreedLinks(ring, ptr, size, bp, k, up, down);
    FreedGaps(ring, size, bp, live[bp], k);
    FreedAt(ring, bp, k, up, down, 0);
    FreedSizeAt(ring, size, bp, live[bp], k, up, down, 0);
    forall i | 0 < i < |ring'| ensures ring'[i] in size' && size'[ring'[i]] > 0 {
      FreedSizeAt(ring, size, bp, live[bp], k, up, down, i);
    }
  }

  lemma LinksIn(ring: seq<nat>, ptr: map<nat, nat>)
    requires Links(ring, ptr)
    ensures forall i :: 0 <= i < |ring| ==> ring[i] in ptr
  {
  }

  lemma FreedLiveOk(ring: seq<nat>, size: map<nat, nat>, live: map<nat, nat>, base: nat, bp: nat, k: nat)
    requires |ring| > 0 && ring[0] == base && Gaps(ring, size) && size[base] == 0 && LiveOk(ring, size, live, base)
    requires bp in live && Place(ring, bp, k) && forall i :: 0 < i < |ring| ==> size[ring[i]] > 0
    ensures var up, down := TouchesNext(ring, bp, live[bp], k), TouchesPrev(ring, size, bp, k);
      LiveOk(FreedRing(ring, bp, k, up, down), FreedSize(ring, size, bp, live[bp], k, up, down), live - {bp}, base)
  {
    hide FreedRing, Gaps;
    GapsIn(ring, size);
    var up, down := TouchesNext(ring, bp, live[bp], k), TouchesPrev(ring, size, bp, k);
    var ring', size' := FreedRing(ring, bp, k, up, down), FreedSize(ring, size, bp, live[bp], k, up, down);
    forall a | a in live && a != bp ensures a != ring[k] && a in size' && size'[a] == size[a] {
      assert k > 0 ==> Apart(a, live[a], ring[k], size[ring[k]]);
      NotOnList(ring, size, live, base, a, k);
    }
    forall a, i | a in live && a != bp && 0 < i < |ring'|
      ensures ring'[i] in size' && Apart(a, live[a], ring'[i], size'[ring'[i]])
    {
      FreedApart(ring, size, live, base, bp, k, a, i);
    }
  }

  lemma FreedHeap(ring: seq<nat>, ptr: map<nat, nat>, size: map<nat, nat>, live: map<nat, nat>,
                  base: nat, brk: nat, total: nat, bp: nat, k: nat)
    requires Heap(ring, ptr, size, live, base, brk, total) && bp in live && Place(ring, bp, k)
    ensures var up, down := TouchesNext(ring, bp, live[bp], k), TouchesPrev(ring, size, bp, k);
      Heap(FreedRing(ring, bp, k, up, down), FreedPtr(ring, ptr, bp, k, up, down),
           FreedSize(ring, size, bp, live[bp], k, up, down), live - {bp}, base, brk, total)
  {
    hide Links, Gaps, LiveOk, FreedRing, FreedSize, FreedPtr;
    GapsIn(ring, size);
    var up, down := TouchesNext(ring, bp, live[bp], k), TouchesPrev(ring, size, bp, k);
    var ring', size' := FreedRing(ring, bp, k, up, down), FreedSize(ring, size, bp, live[bp], k, up, down);
    FreedRingOk(ring, ptr, size, live, base, bp, k);
    FreedLiveOk(ring, size, live, base, bp, k);
    Between(ring, size, live, base, bp, k);
    GapsIn(ring', size');
    forall i | 0 < i < |ring'| ensures ring'[i] + size'[ring'[i]] <= brk {
      FreedSizeAt(ring, size, bp, live[bp], k, up, down, i);
    }
    FreedSum(ring, size, bp, live[bp], k, up, down);
    SumLiveWithout(live, bp);
  }

  // ---- taking a block

  // Exact fit: ring[j] leaves the list.
  ghost function TakenRing(ring: seq<nat>, j: nat): seq<nat>
    requires 0 < j < |ring|
  {
    ring[..j] + ring[j + 1..]
  }

  lemma TakenLinkAt(ring: seq<nat>, ptr: map<nat, nat>, size: map<nat, nat>, j: nat, i: nat)
    requires Links(ring, ptr) && Gaps(ring, size) && 0 < j < |ring| && i < |ring| - 1
    ensures ring[j] in ptr && ring[j - 1] in ptr
    ensures var ring', ptr' := TakenRing(ring, j), ptr[ring[j - 1] := ptr[ring[j]]];
      |ring'| == |ring| - 1 && ring'[i] in ptr' && ptr'[ring'[i]] == if i + 1 < |ring'| then ring'[i + 1] else ring'[0]
  {
    hide TakenRing, Gaps;
    GapsIn(ring, size);
    TakenAt(ring, j, i);
    TakenAt(ring, j, i + 1);
    TakenAt(ring, j, 0);
    assert ring[j] in ptr && ptr[ring[j]] == if j + 1 < |ring| then ring[j + 1] else ring[0];
    if i < j - 1 {
      Ascending(ring, size, i, j - 1);
    } else if i >= j {
      Ascending(ring, size, j - 1, i + 1);
    }
  }

  lemma TakenLinks(ring: seq<nat>, ptr: map<nat, nat>, size: map<nat, nat>, j: nat)
    requires Links(ring, ptr) && Gaps(ring, size) && 0 < j < |ring|
    ensures Links(TakenRing(ring, j), ptr[ring[j - 1] := ptr[ring[j]]])
  {
    hide TakenRing, Gaps;
    TakenLinkAt(ring, ptr, size, j, 0);
    var ring', ptr' := TakenRing(ring, j), ptr[ring[j - 1] := ptr[ring[j]]];
    forall i {:trigger ring'[i]} | 0 <= i < |ring'|
      ensures ring'[i] in ptr' && ptr'[ring'[i]] == if i + 1 < |ring'| then ring'[i + 1] else ring'[0]
    {
      TakenLinkAt(ring, ptr, size, j, i);
    }
  }

  lemma TakenGaps(ring: seq<nat>, size: map<nat, nat>, j: nat)
    requires Gaps(ring, size) && 0 < j < |ring|
    ensures Gaps(TakenRing(ring, j), size)
  {
    var ring' := TakenRing(ring, j);
    forall i {:trigger ring'[i]} | 0 <= i < |ring'| - 1
      ensures ring'[i] in size && ring'[i] + size[ring'[i]] < ring'[i + 1]
    {
      if i == j - 1 {
        Ascending(ring, size, j - 1, j + 1);
      } else if i >= j {
        assert ring'[i] == ring[i + 1] && ring'[i + 1] == ring[i + 2];
      }
    }
  }

  lemma TakenSum(ring: seq<nat>, size: map<nat, nat>, j: nat)
    requires 0 < j < |ring| && forall i :: 0 <= i < |ring| ==> ring[i] in size
    ensures forall i :: 0 <= i < |TakenRing(ring, j)| ==> TakenRing(ring, j)[i] in size
    ensures SumFree(TakenRing(ring, j), size) == SumFree(ring, size) - size[ring[j]]
  {
    SumFreeAt(ring, size, j);
    SumFreeSplit(ring[..j], ring[j + 1..], size);
  }

  lemma RingApart(ring: seq<nat>, size: map<nat, nat>, i: nat, j: nat)
    requires Gaps(ring, size) && i < |ring| && j < |ring| && i != j
    ensures if i < j then ring[i] + size[ring[i]] < ring[j] else ring[j] + size[ring[j]] < ring[i]
  {
    if i < j {
      Ascending(ring, size, i, j);
    } else {
      Ascending(ring, size, j, i);
    }
  }

  lemma TakenLive(ring: seq<nat>, ptr: map<nat, nat>, size: map<nat, nat>, live: map<nat, nat>, base: nat, j: nat)
    requires RingOk(ring, ptr, size, base) && LiveOk(ring, size, live, base) && 0 < j < |ring|
    ensures ring[j] !in live && LiveOk(TakenRing(ring, j), size, live[ring[j] := size[ring[j]]], base)
  {
    hide Links, Gaps, TakenRing;
    GapsIn(ring, size);
    RingApart(ring, size, 0, j);
    var ring', b, live' := TakenRing(ring, j), ring[j], live[ring[j] := size[ring[j]]];
    assert forall a :: a in live ==> Apart(a, live[a], b, size[b]);
    forall a, i | a in live' && 0 < i < |ring'| ensures ring'[i] in size && Apart(a, live'[a], ring'[i], size[ring'[i]])
    {
      TakenAt(ring, j, i);
      var u := if i < j then i else i + 1;
      RingApart(ring, size, u, j);
      assert a != b ==> Apart(a, live[a], ring[u], size[ring[u]]);
    }
  }

  lemma TakenAt(ring: seq<nat>, j: nat, i: nat)
    requires 0 < j < |ring|
    ensures |TakenRing(ring, j)| == |ring| - 1
    ensures i < |ring| - 1 ==> TakenRing(ring, j)[i] == if i < j then ring[i] else ring[i + 1]
  {
  }

  lemma TakenHeap(ring: seq<nat>, ptr: map<nat, nat>, size: map<nat, nat>, live: map<nat, nat>,
                  base: nat, brk: nat, total: nat, j: nat)
    requires Heap(ring, ptr, size, live, base, brk, total) && 0 < j < |ring|
    ensures ring[j] !in live && ring[j] in ptr && ring[j] in size
    ensures Heap(TakenRing(ring, j), ptr[ring[j - 1] := ptr[ring[j]]], size, live[ring[j] := size[ring[j]]], base, brk,
      total)
  {
    hide Links, Gaps, LiveOk;
    GapsIn(ring, size);
    LinksIn(ring, ptr);
    TakenLinks(ring, ptr, size, j);
    TakenGaps(ring, size, j);
    TakenSum(ring, size, j);
    TakenLive(ring, ptr, size, live, base, j);
    SumLiveWith(live, ring[j], size[ring[j]]);
  }

  // A bigger block keeps its place and gives up its tail.
  ghost function SplitSize(ring: seq<nat>, size: map<nat, nat>, j: nat, n: nat): map<nat, nat>
    requires 0 < j < |ring| && ring[j] in size && n <= size[ring[j]]
  {
    size[ring[j] := size[ring[j]] - n][ring[j] + (size[ring[j]] - n) := n]
  }

  lemma SplitSizeAt(ring: seq<nat>, size: map<nat, nat>, j: nat, n: nat, i: nat)
    requires Gaps(ring, size) && 0 < j < |ring| && 0 < n < size[ring[j]] && i < |ring|
    ensures ring[i] in SplitSize(ring, size, j, n)
    ensures SplitSize(ring, size, j, n)[ring[i]] == size[ring[i]] - if i == j then n else 0
  {
    if i < j {
      Ascending(ring, size, i, j);
    } else if i > j {
      Ascending(ring, size, j, i);
    }
  }

  lemma SplitGaps(ring: seq<nat>, size: map<nat, nat>, j: nat, n: nat)
    requires Gaps(ring, size) && 0 < j < |ring| && 0 < n < size[ring[j]]
    ensures Gaps(ring, SplitSize(ring, size, j, n))
    ensures SumFree(ring, SplitSize(ring, size, j, n)) == SumFree(ring, size) - n
  {
    hide SplitSize, SumFree;
    var size' := SplitSize(ring, size, j, n);
    forall i | 0 <= i < |ring| ensures ring[i] in size' && size'[ring[i]] == size[ring[i]] - if i == j then n else 0 {
      SplitSizeAt(ring, size, j, n, i);
    }
    SumFreeAt(ring, size, j);
    SumFreeAt(ring, size', j);
    SumFreeSame(ring[..j], size, size');
    SumFreeSame(ring[j + 1..], size, size');
  }

  // Blocks in use stay so when those on the list shrink.
  lemma LiveShrunk(ring: seq<nat>, size: map<nat, nat>, size': map<nat, nat>, live: map<nat, nat>, base: nat)
    requires LiveOk(ring, size, live, base)
    requires forall a :: a in live ==> a in size' && size'[a] == live[a]
    requires forall i :: 0 < i < |ring| ==>
      ring[i] in size && ring[i] in size' && size'[ring[i]] <= size[ring[i]]
    ensures LiveOk(ring, size', live, base)
  {
  }

  lemma LiveMore(ring: seq<nat>, size: map<nat, nat>, live: map<nat, nat>, base: nat, q: nat, n: nat)
    requires LiveOk(ring, size, live, base) && q in size && size[q] == n > 0 && base < q
    requires forall a :: a in live ==> Apart(a, live[a], q, n)
    requires forall i :: 0 < i < |ring| && ring[i] in size ==> Apart(q, n, ring[i], size[ring[i]])
    ensures q !in live && LiveOk(ring, size, live[q := n], base)
  {
    assert q in live ==> Apart(q, live[q], q, n);
  }

  lemma SplitLive(ring: seq<nat>, ptr: map<nat, nat>, size: map<nat, nat>, live: map<nat, nat>, base: nat, j: nat,
                  n: nat)
    requires RingOk(ring, ptr, size, base) && LiveOk(ring, size, live, base) && 0 < j < |ring| && 0 < n < size[ring[j]]
    ensures var q := ring[j] + (size[ring[j]] - n);
      q !in live && LiveOk(ring, SplitSize(ring, size, j, n), live[q := n], base)
  {
    hide SplitSize, Links, Gaps;
    GapsIn(ring, size);
    RingApart(ring, size, 0, j);
    var q, size' := ring[j] + (size[ring[j]] - n), SplitSize(ring, size, j, n);
    assert forall a :: a in live ==> Apart(a, live[a], ring[j], size[ring[j]]);
    SplitElse(ring, size, j, n);
    forall i | 0 < i < |ring|
      ensures ring[i] in size' && Apart(q, n, ring[i], size'[ring[i]]) && size'[ring[i]] <= size[ring[i]]
    {
      SplitPiece(ring, size, j, n, i);
    }
    hide LiveOk;
    LiveShrunk(ring, size, size', live, base);
    LiveMore(ring, size', live, base, q, n);
  }

  // The piece cut off is apart from every block on the list, and none of these has grown.
  lemma SplitPiece(ring: seq<nat>, size: map<nat, nat>, j: nat, n: nat, i: nat)
    requires Gaps(ring, size) && 0 < j < |ring| && 0 < n < size[ring[j]] && i < |ring|
    ensures var size' := SplitSize(ring, size, j, n);
      && ring[i] in size' && size'[ring[i]] <= size[ring[i]]
      && Apart(ring[j] + (size[ring[j]] - n), n, ring[i], size'[ring[i]])
  {
    hide SplitSize, Gaps;
    GapsIn(ring, size);
    SplitSizeAt(ring, size, j, n, i);
    if i != j {
      RingApart(ring, size, i, j);
    }
  }

  lemma SplitElse(ring: seq<nat>, size: map<nat, nat>, j: nat, n: nat)
    requires 0 < j < |ring| && ring[j] in size && 0 < n < size[ring[j]]
    ensures var q, size' := ring[j] + (size[ring[j]] - n), SplitSize(ring, size, j, n);
      q in size' && size'[q] == n && forall a :: a in size && a != q && a != ring[j] ==>
        a in size' && size'[a] == size[a]
  {
  }

  lemma SplitHeap(ring: seq<nat>, ptr: map<nat, nat>, size: map<nat, nat>, live: map<nat, nat>,
                  base: nat, brk: nat, total: nat, j: nat, n: nat)
    requires Heap(ring, ptr, size, live, base, brk, total) && 0 < j < |ring| && 0 < n < size[ring[j]]
    ensures var q := ring[j] + (size[ring[j]] - n);
      q !in live && Heap(ring, ptr, SplitSize(ring, size, j, n), live[q := n], base, brk, total)
  {
    hide Links, Gaps, LiveOk, SplitSize;
    GapsIn(ring, size);
    SplitGaps(ring, size, j, n);
    SplitLive(ring, ptr, size, live, base, j, n);
    SumLiveWith(live, ring[j] + (size[ring[j]] - n), n);
    forall i | 0 <= i < |ring| ensures ring[i] in SplitSize(ring, size, j, n)
      ensures SplitSize(ring, size, j, n)[ring[i]] == size[ring[i]] - if i == j then n else 0
    {
      SplitSizeAt(ring, size, j, n, i);
    }
  }

  // ---- the allocator

  function Units(nbytes: nat): (n: nat)
    ensures n >= 1 && (n - 1) * HEADER >= nbytes
  {
    (nbytes + HEADER - 1) / HEADER + 1
  }

  class Allocator {
    const base: nat            // address of the static header, in units
    var freep: Option<nat>     // null before the first call
    var ptr: map<nat, nat>     // s.ptr and s.size of the header at each address
    var size: map<nat, nat>
    var brk: nat               // end of the memory sbrk has given out
    ghost var ring: seq<nat>
    ghost var live: map<nat, nat>
    ghost var total: nat

    ghost predicate Valid()
      reads this
    {
      && base < brk
      && (freep.None? ==> live == map[] && total == 0)
      && (freep.Some? ==> freep.value in ring && Heap(ring, ptr, size, live, base, brk, total))
    }

    constructor (base: nat, brk: nat)
      requires base < brk
      ensures Valid() && this.base == base && live == map[] && total == 0
    {
      this.base, this.brk := base, brk;
      freep, ptr, size := None, map[], map[];
      ring, live, total := [], map[], 0;
    }

    /** The search of free: the block on the list after which bp belongs. */
    method FindPlace(bp: nat) returns (p: nat, ghost k: nat)
      requires Valid() && freep.Some? && bp in live
      ensures Place(ring, bp, k) && p == ring[k]
      ensures p in ptr && p < bp && (bp < ptr[p] || ptr[p] <= p)
    {
      hide LiveOk, SumFree, Links, Gaps;
      OffList(ring, ptr, size, live, base, bp);
      LinksIn(ring, ptr);
      ghost var at := PlaceOf(ring, size, bp);
      p := freep.value;
      k :| 0 <= k < |ring| && ring[k] == p;
      while !(bp > p && bp < ptr[p])
        invariant 0 <= k < |ring| && p == ring[k]
        decreases if k <= at then at - k else |ring| - k + at
      {
        Onward(ring, ptr, size, bp, at, k);
        if p >= ptr[p] && (bp > p || bp < ptr[p]) {
          return;
        }
        p := ptr[p];
        k := if k + 1 < |ring| then k + 1 else 0;
      }
      Onward(ring, ptr, size, bp, at, k);
    }

    /** free of a block in use: it joins the list where it belongs, merged with the neighbours it touches. */
    method Free(ap: nat)
      requires Valid() && freep.Some? && ap > 0 && ap - 1 in live
      modifies this`ptr, this`size, this`freep, this`ring, this`live
      ensures Valid() && freep.Some? && live == old(live) - {ap - 1}
      ensures Fitting(ring, size, old(live)[ap - 1])
    {
      hide LiveOk, SumFree, Links, Gaps, FreedRing, FreedPtr, FreedSize;
      var bp := ap - 1;
      var p, k := FindPlace(bp);
      GapsIn(ring, size);
      LinksIn(ring, ptr);
      LiveSize(ring, size, live, base, bp);
      ghost var up, down := TouchesNext(ring, bp, live[bp], k), TouchesPrev(ring, size, bp, k);
      FreedHeap(ring, ptr, size, live, base, brk, total, bp, k);
      FreedHas(ring, ptr, size, live, base, bp, k);
      NextIs(ring, ptr, size, base, bp, k, live[bp]);
      ghost var ring' := FreedRing(ring, bp, k, up, down);
      ptr, size := Join(ring, ptr, size, bp, p, k);
      freep := Some(p);
      ring := ring';
      live := live - {bp};
    }

    /**
     sbrk, which the kernel grants or refuses: a region `grant` units above
     everything given out so far, or none.
     */
    method Sbrk(nu: nat, grant: Option<nat>) returns (r: Option<nat>)
      requires 0 < nu && nu * HEADER < INT_LIMIT
      modifies this`brk
      ensures r.None? <==> grant.None?
      ensures r.None? ==> brk == old(brk)
      ensures r.Some? ==> r.value == old(brk) + grant.value && brk == r.value + nu
    {
      if grant.None? {
        return None;
      }
      r := Some(brk + grant.value);
      brk := brk + grant.value + nu;
    }

    /** morecore: at least nu more units on the list, in one block, unless sbrk is refused. */
    method Morecore(nu: nat, grant: Option<nat>) returns (p: Option<nat>)
      requires Valid() && freep.Some? && 0 < nu && nu * HEADER < INT_LIMIT
      modifies this
      ensures Valid() && freep.Some? && live == old(live)
      ensures p.None? <==> grant.None?
      ensures p.None? ==> unchanged(this)
      ensures p.Some? ==> p == freep && total == old(total) + if nu < MINCORE then MINCORE else nu
      ensures p.Some? ==> Fitting(ring, size, nu)
    {
      hide LiveOk, SumFree, Links, Gaps, Heap;
      var units := if nu < MINCORE then MINCORE else nu;
      var r := Sbrk(units, grant);
      if r.None? {
        return None;
      }
      var hp := r.value;
      GrantHeap(ring, ptr, size, live, base, old(brk), total, hp, units);
      size := size[hp := units];
      live := live[hp := units];
      total := total + units;
      Free(hp + 1);
      assert old(live)[hp := units] - {hp} == old(live);
      HeapSizes(ring, ptr, size, live, base, brk, total);
      return freep;
    }

    /** malloc's first call: the list is the static header alone. */
    method Init()
      requires Valid() && freep.None?
      modifies this`freep, this`ptr, this`size, this`ring
      ensures Valid() && freep.Some? && |ring| == 1
    {
      ptr := ptr[base := base];
      size := size[base := 0];
      freep := Some(base);
      ring := [base];
      assert ring[..0] == [];
    }

    /** A fitting block at place j of the list, after prevp: take it whole, or its tail. */
    method Take(prevp: nat, p: nat, nunits: nat, ghost j: nat) returns (bp: nat)
      requires Valid() && freep.Some? && nunits > 0 && 0 < j < |ring| && p == ring[j] && prevp == ring[j - 1]
      requires p in size && size[p] >= nunits
      modifies this`freep, this`ptr, this`size, this`ring, this`live
      ensures Valid() && freep.Some? && bp !in old(live) && live == old(live)[bp := nunits]
    {
      hide LiveOk, SumFree, SumLive, Links, Gaps, Heap, TakenRing, SplitSize;
      HeapSizes(ring, ptr, size, live, base, brk, total);
      if size[p] == nunits {
        TakenHeap(ring, ptr, size, live, base, brk, total, j);
        TakenAt(ring, j, j - 1);
        ptr := ptr[prevp := ptr[p]];
        ring := TakenRing(ring, j);
        bp := p;
      } else {
        SplitHeap(ring, ptr, size, live, base, brk, total, j, nunits);
        SplitIs(ring, size, j, nunits);
        size := size[p := size[p] - nunits];
        bp := p + size[p];
        size := size[bp := nunits];
      }
      live := live[bp := nunits];
      freep := Some(prevp);
    }

    /**
     malloc.  The block it returns was in no one's use, holds nbytes, and every
     block in use before still is; the search ends within one lap of the
     list, and within one more after morecore.  It fails exactly when no block
     on the list fits and sbrk is refused, and asks sbrk only when none fits.
     */
    method Malloc(nbytes: nat, grant: Option<nat>) returns (r: Option<nat>)
      requires Valid() && Units(nbytes) * HEADER < INT_LIMIT
      modifies this
      ensures Valid()
      ensures r.None? <==> grant.None? && !old(freep.Some? && Fitting(ring, size, Units(nbytes)))
      ensures r.None? ==> live == old(live)
      ensures r.Some? ==> r.value > 0 && r.value - 1 !in old(live) && live == old(live)[r.value - 1 := Units(nbytes)]
      ensures total == old(total) +
        if r.None? || old(freep.Some? && Fitting(ring, size, Units(nbytes))) then 0
        else if Units(nbytes) < MINCORE then MINCORE else Units(nbytes)
    {
      hide LiveOk, SumFree, SumLive, Links, Gaps, Heap, Units, TooSmall, Fitting, At, Nth;
      var nunits := Units(nbytes);
      if freep.None? {
        Init();
        NothingFits(ring, size, nunits);
      }
      ghost var fits, grown, seen := Fitting(ring, size, nunits), false, 0;
      ghost var f: nat :| f < |ring| && ring[f] == freep.value;
      SearchStarts(ring, ptr, size, live, base, brk, total, f, nunits);
      var prevp := freep.value;
      var p := ptr[prevp];
      while true
        invariant Valid() && freep.Some? && live == old(live)
        invariant f < |ring| && ring[f] == freep.value && seen < |ring|
        invariant At(ring, f, seen, prevp, p) && TooSmall(ring, size, f, seen, nunits)
        invariant grown ==> Fitting(ring, size, nunits) && !fits && grant.Some?
        invariant !grown ==> fits == Fitting(ring, size, nunits)
        invariant total == old(total) + if !grown then 0 else if nunits < MINCORE then MINCORE else nunits
        decreases if grown then 0 else 1, |ring| - seen
      {
        Looking(ring, ptr, size, live, base, brk, total, f, seen, prevp, p, nunits);
        if size[p] >= nunits {
          AFit(ring, size, nunits, Nth(f, seen, |ring|));
          var bp := Take(prevp, p, nunits, Nth(f, seen, |ring|));
          return Some(bp + 1);
        }
        if p == freep.value {
          var more := Morecore(nunits, grant);
          if more.None? {
            return None;
          }
          p := more.value;
          grown, seen := true, 0;
          f :| f < |ring| && ring[f] == freep.value;
          SearchStarts(ring, ptr, size, live, base, brk, total, f, nunits);
        } else {
          seen := seen + 1;
        }
        prevp, p := p, ptr[p];
      }
    }
  }

  lemma NothingFits(ring: seq<nat>, size: map<nat, nat>, n: nat)
    requires |ring| == 1
    ensures !Fitting(ring, size, n)
  {
  }

  lemma AFit(ring: seq<nat>, size: map<nat, nat>, n: nat, i: nat)
    requires 0 < i < |ring| && ring[i] in size && size[ring[i]] >= n
    ensures Fitting(ring, size, n)
  {
  }

  // The t-th place after place f on a circular list of n.
  function Nth(f: nat, t: nat, n: nat): nat
    requires f < n && t < n
  {
    if f + 1 + t < n then f + 1 + t else f + 1 + t - n
  }

  lemma SameSpot(ring: seq<nat>, ptr: map<nat, nat>, size: map<nat, nat>, live: map<nat, nat>,
                 base: nat, brk: nat, total: nat, i: nat, j: nat)
    requires Heap(ring, ptr, size, live, base, brk, total) && i < |ring| && j < |ring| && ring[i] == ring[j]
    ensures i == j
  {
    if i != j {
      RingApart(ring, size, i, j);
    }
  }

  // The first `seen` blocks after place f are smaller than n.
  ghost predicate TooSmall(ring: seq<nat>, size: map<nat, nat>, f: nat, seen: nat, n: nat) {
    f < |ring| && seen <= |ring|
    && forall t :: 0 <= t < seen ==> ring[Nth(f, t, |ring|)] in size && size[ring[Nth(f, t, |ring|)]] < n
  }

  ghost predicate Fitting(ring: seq<nat>, size: map<nat, nat>, n: nat) {
    exists i :: 0 < i < |ring| && ring[i] in size && size[ring[i]] >= n
  }

  // After `seen` steps from place f the search looks at p, with prevp before it.
  ghost predicate At(ring: seq<nat>, f: nat, seen: nat, prevp: nat, p: nat) {
    && f < |ring| && seen < |ring|
    && p == ring[Nth(f, seen, |ring|)] && prevp == ring[if seen == 0 then f else Nth(f, seen - 1, |ring|)]
  }

  lemma SearchStarts(ring: seq<nat>, ptr: map<nat, nat>, size: map<nat, nat>, live: map<nat, nat>,
                     base: nat, brk: nat, total: nat, f: nat, n: nat)
    requires Heap(ring, ptr, size, live, base, brk, total) && f < |ring|
    ensures ring[f] in ptr && At(ring, f, 0, ring[f], ptr[ring[f]]) && TooSmall(ring, size, f, 0, n)
  {
  }

  // What one turn of the search may conclude.
  lemma Looking(ring: seq<nat>, ptr: map<nat, nat>, size: map<nat, nat>, live: map<nat, nat>, base: nat, brk: nat,
                total: nat, f: nat, seen: nat, prevp: nat, p: nat, n: nat)
    requires Heap(ring, ptr, size, live, base, brk, total)
    requires At(ring, f, seen, prevp, p) && TooSmall(ring, size, f, seen, n) && n > 0
    ensures p in size && p in ptr && Nth(f, seen, |ring|) < |ring| && p == ring[Nth(f, seen, |ring|)]
    ensures size[p] >= n ==> 0 < Nth(f, seen, |ring|) && prevp == ring[Nth(f, seen, |ring|) - 1]
    ensures size[p] < n && p == ring[f] ==> !Fitting(ring, size, n)
    ensures size[p] < n && p != ring[f] ==>
      seen + 1 < |ring| && At(ring, f, seen + 1, p, ptr[p]) && TooSmall(ring, size, f, seen + 1, n)
  {
    hide Heap, Links, Gaps, LiveOk, SumFree, SumLive, Fitting;
    Steps(ring, ptr, size, live, base, brk, total, Nth(f, seen, |ring|));
    if size[p] < n {
      OneMore(ring, size, f, seen, n);
      if p == ring[f] {
        SameSpot(ring, ptr, size, live, base, brk, total, f, Nth(f, seen, |ring|));
        WholeLap(ring, size, f, n);
      }
    }
  }

  lemma Steps(ring: seq<nat>, ptr: map<nat, nat>, size: map<nat, nat>, live: map<nat, nat>,
              base: nat, brk: nat, total: nat, i: nat)
    requires Heap(ring, ptr, size, live, base, brk, total) && i < |ring|
    ensures ring[i] in ptr && ring[i] in size && ptr[ring[i]] == if i + 1 < |ring| then ring[i + 1] else ring[0]
    ensures ring[0] in size && size[ring[0]] == 0
  {
    hide LiveOk, SumFree, SumLive;
    GapsIn(ring, size);
  }

  lemma OneMore(ring: seq<nat>, size: map<nat, nat>, f: nat, seen: nat, n: nat)
    requires TooSmall(ring, size, f, seen, n) && seen < |ring|
    requires ring[Nth(f, seen, |ring|)] in size && size[ring[Nth(f, seen, |ring|)]] < n
    ensures TooSmall(ring, size, f, seen + 1, n)
  {
  }

  // A lap that found every block too small has looked at them all.
  lemma WholeLap(ring: seq<nat>, size: map<nat, nat>, f: nat, n: nat)
    requires TooSmall(ring, size, f, |ring|, n)
    ensures !Fitting(ring, size, n)
  {
    forall i | 0 <= i < |ring| ensures ring[i] in size && size[ring[i]] < n {
      var t := if i > f then i - f - 1 else i - f - 1 + |ring|;
      assert Nth(f, t, |ring|) == i;
    }
  }

  lemma SplitIs(ring: seq<nat>, size: map<nat, nat>, j: nat, n: nat)
    requires 0 < j < |ring| && ring[j] in size && n <= size[ring[j]]
    ensures SplitSize(ring, size, j, n) == size[ring[j] := size[ring[j]] - n][ring[j] + (size[ring[j]] - n) := n]
  {
  }

  lemma HeapSizes(ring: seq<nat>, ptr: map<nat, nat>, size: map<nat, nat>, live: map<nat, nat>, base: nat, brk: nat,
                  total: nat)
    requires Heap(ring, ptr, size, live, base, brk, total)
    ensures forall i :: 0 <= i < |ring| ==> ring[i] in size && ring[i] in ptr
  {
    GapsIn(ring, size);
    LinksIn(ring, ptr);
  }

  lemma GrantGaps(ring: seq<nat>, size: map<nat, nat>, hp: nat, n: nat)
    requires Gaps(ring, size) && forall i :: 0 <= i < |ring| ==> ring[i] != hp
    ensures Gaps(ring, size[hp := n]) && SumFree(ring, size[hp := n]) == SumFree(ring, size)
  {
    SumFreeSame(ring, size, size[hp := n]);
  }

  lemma GrantLive(ring: seq<nat>, size: map<nat, nat>, live: map<nat, nat>, base: nat, brk: nat, hp: nat, n: nat)
    requires LiveOk(ring, size, live, base) && base < brk <= hp && n > 0
    requires forall i :: 0 <= i < |ring| ==> ring[i] in size && ring[i] != hp
    requires forall i :: 0 < i < |ring| ==> ring[i] + size[ring[i]] <= brk
    requires forall a :: a in live ==> a + live[a] <= brk
    ensures hp !in live && LiveOk(ring, size[hp := n], live[hp := n], base)
  {
    assert forall a :: a in live ==> a < hp;
  }

  // A new region past the break counts as a block in use.
  lemma GrantHeap(ring: seq<nat>, ptr: map<nat, nat>, size: map<nat, nat>, live: map<nat, nat>,
                  base: nat, brk: nat, total: nat, hp: nat, n: nat)
    requires Heap(ring, ptr, size, live, base, brk, total) && base < brk <= hp && n > 0
    ensures hp !in live && Heap(ring, ptr, size[hp := n], live[hp := n], base, hp + n, total + n)
  {
    hide Links, Gaps, LiveOk, SumFree, SumLive;
    GapsIn(ring, size);
    GrantGaps(ring, size, hp, n);
    GrantLive(ring, size, live, base, brk, hp, n);
    SumLiveWith(live, hp, n);
  }

  /** The header updates of free, with p the block on the list before bp. */
  method Join(ghost ring: seq<nat>, ptr: map<nat, nat>, size: map<nat, nat>, bp: nat, p: nat, ghost k: nat)
    returns (ptr': map<nat, nat>, size': map<nat, nat>)
    requires k < |ring| && p == ring[k] && p in ptr && p in size && bp in size && p != bp
    requires k + 1 < |ring| ==> ptr[p] == ring[k + 1] && ring[k + 1] in ptr && ring[k + 1] in size && ring[k + 1] != bp
    requires bp + size[bp] == ptr[p] <==> TouchesNext(ring, bp, size[bp], k)
    ensures var up, down := TouchesNext(ring, bp, size[bp], k), TouchesPrev(ring, size, bp, k);
      ptr' == FreedPtr(ring, ptr, bp, k, up, down) && size' == FreedSize(ring, size, bp, size[bp], k, up, down)
  {
    ptr', size' := ptr, size;
    if bp + size[bp] == ptr[p] {
      size' := size'[bp := size'[bp] + size'[ptr'[p]]];
      ptr' := ptr'[bp := ptr'[ptr'[p]]];
    } else {
      ptr' := ptr'[bp := ptr'[p]];
    }
    if p + size'[p] == bp {
      size' := size'[p := size'[p] + size'[bp]];
      ptr' := ptr'[p := ptr'[bp]];
    } else {
      ptr' := ptr'[p := bp];
    }
  }

  lemma LiveSize(ring: seq<nat>, size: map<nat, nat>, live: map<nat, nat>, base: nat, bp: nat)
    requires LiveOk(ring, size, live, base) && bp in live
    ensures bp in size && size[bp] == live[bp] && base < bp
  {
  }

  // The test for touching the upper neighbour reads the link of ring[k].
  lemma NextIs(ring: seq<nat>, ptr: map<nat, nat>, size: map<nat, nat>, base: nat, bp: nat, k: nat, n: nat)
    requires RingOk(ring, ptr, size, base) && Place(ring, bp, k) && base < bp
    ensures ring[k] in ptr && (bp + n == ptr[ring[k]] <==> TouchesNext(ring, bp, n, k)) && ring[k] != bp
    ensures k + 1 < |ring| ==> ptr[ring[k]] == ring[k + 1] && ring[k + 1] != bp
  {
    assert ring[k] in ptr;
  }

  // The freed units are in one block of the new list, which still has ring[k].
  lemma FreedHas(ring: seq<nat>, ptr: map<nat, nat>, size: map<nat, nat>, live: map<nat, nat>, base: nat, bp: nat,
                 k: nat)
    requires RingOk(ring, ptr, size, base) && LiveOk(ring, size, live, base) && bp in live && Place(ring, bp, k)
    ensures ring[k] in size && (k + 1 < |ring| ==> ring[k + 1] in size)
    ensures var up, down := TouchesNext(ring, bp, live[bp], k), TouchesPrev(ring, size, bp, k);
      var ring', size' := FreedRing(ring, bp, k, up, down), FreedSize(ring, size, bp, live[bp], k, up, down);
      && ring[k] in ring'
      && Fitting(ring', size', live[bp])
  {
    hide FreedRing, FreedSize, Links;
    var up, down := TouchesNext(ring, bp, live[bp], k), TouchesPrev(ring, size, bp, k);
    FreedAt(ring, bp, k, up, down, k);
    FreedSizeAt(ring, size, bp, live[bp], k, up, down, k);
    var i := if down then k else k + 1;
    FreedAt(ring, bp, k, up, down, i);
    FreedSizeAt(ring, size, bp, live[bp], k, up, down, i);
    assert down ==> k > 0;
  }

  lemma OffList(ring: seq<nat>, ptr: map<nat, nat>, size: map<nat, nat>, live: map<nat, nat>, base: nat, bp: nat)
    requires RingOk(ring, ptr, size, base) && LiveOk(ring, size, live, base) && bp in live
    ensures base < bp && forall i :: 0 <= i < |ring| ==> ring[i] != bp
  {
    forall i | 0 <= i < |ring| ensures ring[i] != bp {
      NotOnList(ring, size, live, base, bp, i);
    }
  }

  // Where bp belongs on an ascending list that starts below it.
  ghost function PlaceOf(ring: seq<nat>, size: map<nat, nat>, bp: nat): (k: nat)
    requires |ring| > 0 && Gaps(ring, size) && ring[0] < bp && forall i :: 0 <= i < |ring| ==> ring[i] != bp
    ensures Place(ring, bp, k)
  {
    if |ring| == 1 || ring[|ring| - 1] < bp then |ring| - 1
    else PlaceOf(ring[..|ring| - 1], size, bp)
  }

  // Seen from ring[k], the tests of free's loop say whether k is the place.
  lemma Onward(ring: seq<nat>, ptr: map<nat, nat>, size: map<nat, nat>, bp: nat, at: nat, k: nat)
    requires |ring| > 0 && Links(ring, ptr) && Gaps(ring, size) && Place(ring, bp, at) && k < |ring| && ring[0] < bp
    ensures ring[k] in ptr && ptr[ring[k]] == if k + 1 < |ring| then ring[k + 1] else ring[0]
    ensures bp > ring[k] && bp < ptr[ring[k]] ==> k == at
    ensures ring[k] >= ptr[ring[k]] <==> k + 1 == |ring|
    ensures ring[k] >= ptr[ring[k]] && (bp > ring[k] || bp < ptr[ring[k]]) ==> k == at
    ensures k == at ==> (bp > ring[k] && bp < ptr[ring[k]]) || (ring[k] >= ptr[ring[k]] && bp > ring[k])
  {
    hide Links, Gaps;
    LinkAt(ring, ptr, k);
    GapsIn(ring, size);
    if k != at {
      RingApart(ring, size, k, at);
    }
    if k + 1 < |ring| {
      RingApart(ring, size, k, k + 1);
      if k < at && k + 1 != at {
        RingApart(ring, size, k + 1, at);
      }
    } else if k > 0 {
      RingApart(ring, size, 0, k);
    }
    if at + 1 < |ring| && k > at + 1 {
      RingApart(ring, size, at + 1, k);
    }
  }
}
