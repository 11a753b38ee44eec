/**
 count_thread, parallel_counting_sort and sort_files of
 concurrency/Distributed-Sorting/finaltry.c.
 */
module CountingSort {
  import opened StableSort
  import opened MergeSort

  const THREAD_COUNT: nat := 4
  const LAZY_THRESHOLD: nat := 42
  const INT_MAX: nat := 0x7fff_ffff

  // How many entries have a sort key.
  ghost function Occ(s: seq<Entry>, key: int): nat {
    |Class(SortKey, s, [key])|
  }

  lemma OccConcat(s: seq<Entry>, t: seq<Entry>, key: int)
    ensures Occ(s + t, key) == Occ(s, key) + Occ(t, key)
  {
    ClassConcat(SortKey, s, t, [key]);
  }

  lemma OccOne(e: Entry, key: int)
    ensures Occ([e], key) == if e.sortKey == key then 1 else 0
  {
    assert Class(SortKey, [e][1..], [key]) == [];
    assert [e.sortKey] == [key] <==> e.sortKey == key;
  }

  ghost predicate InRange(s: seq<Entry>, min: nat, range: nat) {
    forall i :: 0 <= i < |s| ==> min <= s[i].sortKey < min + range
  }

  // ---- the histogram

  /** count_thread's own part: a private histogram of files[start..end]. */
  method CountLocal(files: array<Entry>, start: nat, end: nat, min: nat, range: nat) returns (local: seq<nat>)
    requires start <= end <= files.Length && InRange(files[..], min, range)
    ensures |local| == range && forall v :: 0 <= v < range ==> local[v] == Occ(files[start..end], min + v)
  {
    hide Occ;
    local := seq(range, _ => 0);
    assert files[start..start] == [];
    forall v | 0 <= v < range ensures local[v] == Occ(files[start..start], min + v) {
      OccNone(min + v);
    }
    for i := start to end
      invariant |local| == range && forall v :: 0 <= v < range ==> local[v] == Occ(files[start..i], min + v)
    {
      assert files[..][i].sortKey >= min;
      var index := files[i].sortKey - min;
      assert files[start..i + 1] == files[start..i] + [files[i]];
      forall v | 0 <= v < range ensures Occ(files[start..i + 1], min + v) == local[v] + if v == index then 1 else 0 {
        OccConcat(files[start..i], [files[i]], min + v);
        OccOne(files[i], min + v);
      }
      local := local[index := local[index] + 1];
    }
  }

  lemma OccNone(key: int)
    ensures Occ([], key) == 0
  {
  }

  // How often thread t has its turn.
  function Times(schedule: seq<nat>, t: nat): nat {
    if schedule == [] then 0
    else Times(schedule[..|schedule| - 1], t) + if schedule[|schedule| - 1] == t then 1 else 0
  }

  lemma {:induction false} TimesPrefix(schedule: seq<nat>, j: nat, t: nat)
    requires j <= |schedule|
    ensures Times(schedule[..j], t) <= Times(schedule, t)
    ensures j < |schedule| && schedule[j] == t ==> Times(schedule[..j], t) < Times(schedule, t)
    decreases |schedule|
  {
    if j == |schedule| {
      assert schedule[..j] == schedule;
    } else {
      var init := schedule[..|schedule| - 1];
      assert init[..j] == schedule[..j];
      TimesPrefix(init, j, t);
    }
  }

  // A schedule of fetch-and-adds in which every thread adds each of its counts once, in order.
  ghost predicate Complete(schedule: seq<nat>, threads: nat, range: nat) {
    && (forall j :: 0 <= j < |schedule| ==> schedule[j] < threads)
    && (forall t :: 0 <= t < threads ==> Times(schedule, t) == range)
  }

  // What bucket v holds when thread t has added its first next[t] counts.
  ghost function Added(locals: seq<seq<nat>>, next: seq<nat>, v: nat): nat
    requires |locals| == |next| && forall t :: 0 <= t < |locals| ==> v < |locals[t]|
  {
    if locals == [] then 0 else Added(locals[1..], next[1..], v) + if next[0] > v then locals[0][v] else 0
  }

  lemma {:induction false} AddedStep(locals: seq<seq<nat>>, next: seq<nat>, t: nat, v: nat)
    requires t < |locals| == |next| && forall u :: 0 <= u < |locals| ==> v < |locals[u]|
    ensures Added(locals, next[t := next[t] + 1], v) == Added(locals, next, v) + if next[t] == v then locals[t][v]
      else 0
  {
    var next' := next[t := next[t] + 1];
    if t == 0 {
      assert next'[1..] == next[1..];
    } else {
      assert next'[1..] == next[1..][t - 1 := next[t] + 1];
      AddedStep(locals[1..], next[1..], t - 1, v);
    }
  }

  ghost function Sum(locals: seq<seq<nat>>, v: nat): nat
    requires forall t :: 0 <= t < |locals| ==> v < |locals[t]|
  {
    if locals == [] then 0 else Sum(locals[1..], v) + locals[0][v]
  }

  lemma {:induction false} AllAdded(locals: seq<seq<nat>>, next: seq<nat>, v: nat)
    requires |locals| == |next| && forall t :: 0 <= t < |locals| ==> v < |locals[t]| && next[t] > v
    ensures Added(locals, next, v) == Sum(locals, v)
  {
    if locals != [] {
      AllAdded(locals[1..], next[1..], v);
    }
  }

  lemma {:induction false} NothingAdded(locals: seq<seq<nat>>, next: seq<nat>, v: nat)
    requires |locals| == |next| && forall t :: 0 <= t < |locals| ==> v < |locals[t]| && next[t] == 0
    ensures Added(locals, next, v) == 0
  {
    if locals != [] {
      NothingAdded(locals[1..], next[1..], v);
    }
  }

  /** The threads' fetch-and-adds into the shared counts, in the order the schedule gives: the sum in every order. */
  method AddInto(locals: seq<seq<nat>>, range: nat, schedule: seq<nat>) returns (count: seq<nat>)
    requires Complete(schedule, |locals|, range) && forall t :: 0 <= t < |locals| ==> |locals[t]| == range
    ensures |count| == range && forall v :: 0 <= v < range ==> count[v] == Sum(locals, v)
  {
    hide Added, Sum;
    count := seq(range, _ => 0);
    var next := seq(|locals|, _ => 0);
    forall v | 0 <= v < range ensures Added(locals, next, v) == 0 {
      NothingAdded(locals, next, v);
    }
    for j := 0 to |schedule|
      invariant |next| == |locals| && |count| == range
      invariant forall t :: 0 <= t < |next| ==> next[t] == Times(schedule[..j], t)
      invariant forall v :: 0 <= v < range ==> count[v] == Added(locals, next, v)
    {
      var t := schedule[j];
      TimesPrefix(schedule, j, t);
      forall v | 0 <= v < range
        ensures Added(locals, next[t := next[t] + 1], v) == Added(locals, next, v) + if next[t] == v then locals[t][v]
          else 0
      {
        AddedStep(locals, next, t, v);
      }
      assert schedule[..j + 1][..j] == schedule[..j];
      count := count[next[t] := count[next[t]] + locals[t][next[t]]];
      next := next[t := next[t] + 1];
    }
    assert schedule[..|schedule|] == schedule;
    forall v | 0 <= v < range ensures count[v] == Sum(locals, v) {
      AllAdded(locals, next, v);
    }
  }

  // The threads' parts together have the histogram of the whole.
  lemma {:induction false} PartsSum(f: seq<Entry>, qs: seq<Queue>, locals: seq<seq<nat>>, min: nat, v: nat)
    requires Inside(f, qs) && |qs| == |locals|
    requires forall t :: 0 <= t < |locals| ==>
      v < |locals[t]| && locals[t][v] == Occ(f[qs[t].index..qs[t].end], min + v)
    ensures Sum(locals, v) == Occ(Flat(f, qs), min + v)
  {
    hide Occ;
    if qs == [] {
      OccNone(min + v);
    } else {
      PartsSum(f, qs[1..], locals[1..], min, v);
      OccConcat(f[qs[0].index..qs[0].end], Flat(f, qs[1..]), min + v);
    }
  }

  /** The counting phase: whatever the schedule, the true histogram. */
  method CountAll(files: array<Entry>, min: nat, range: nat, schedule: seq<nat>) returns (count: seq<nat>)
    requires InRange(files[..], min, range) && Complete(schedule, THREAD_COUNT, range)
    ensures |count| == range && forall v :: 0 <= v < range ==> count[v] == Occ(files[..], min + v)
  {
    hide Occ, Part, Flat, Sum;
    ghost var f, qs := files[..], Parts(0, files.Length, THREAD_COUNT, 0);
    var locals: seq<seq<nat>> := [];
    for i := 0 to THREAD_COUNT
      invariant |locals| == i && forall t :: 0 <= t < i ==> |locals[t]| == range
      invariant forall t, v :: 0 <= t < i && 0 <= v < range ==> locals[t][v] == Occ(f[qs[t].index..qs[t].end], min + v)
    {
      var q := Part(0, files.Length, THREAD_COUNT, i);
      var local := CountLocal(files, q.index, q.end, min, range);
      assert f[q.index..q.end] == files[q.index..q.end];
      locals := locals + [local];
    }
    count := AddInto(locals, range, schedule);
    PartsMakeWhole(f, 0, files.Length, THREAD_COUNT, 0);
    assert f[0..files.Length] == f;
    forall v | 0 <= v < range ensures count[v] == Occ(f, min + v) {
      PartsSum(f, qs, locals, min, v);
    }
  }

  // ---- places

  // How many entries have one of the first v sort keys from min on.
  ghost function Before(s: seq<Entry>, min: nat, v: nat): nat {
    if v == 0 then 0 else Before(s, min, v - 1) + Occ(s, min + v - 1)
  }

  lemma {:induction false} BeforeGrows(s: seq<Entry>, min: nat, v: nat, w: nat)
    requires v <= w
    ensures Before(s, min, v) <= Before(s, min, w)
    ensures v < w ==> Before(s, min, v) + Occ(s, min + v) <= Before(s, min, w)
    decreases w
  {
    if v < w {
      BeforeGrows(s, min, v, w - 1);
    }
  }

  /** The running sums. */
  method Accumulate(ghost s: seq<Entry>, ghost min: nat, count: seq<nat>) returns (ends: seq<nat>)
    requires forall v :: 0 <= v < |count| ==> count[v] == Occ(s, min + v)
    ensures |ends| == |count| && forall v :: 0 <= v < |count| ==> ends[v] == Before(s, min, v + 1)
  {
    hide Occ;
    ends := count;
    if |count| == 0 {
      return;
    }
    assert Before(s, min, 1) == Before(s, min, 0) + Occ(s, min + 0);
    for i := 1 to |count|
      invariant |ends| == |count|
      invariant forall v :: 0 <= v < i ==> ends[v] == Before(s, min, v + 1)
      invariant forall v :: i <= v < |count| ==> ends[v] == count[v]
    {
      ends := ends[i := ends[i] + ends[i - 1]];
    }
  }

  // Entries i and up are in place: each key's last ones, in order, at the end of its stretch.
  ghost predicate Placed(s: seq<Entry>, min: nat, range: nat, i: nat, out: seq<Entry>, count: seq<nat>) {
    && i <= |s| == |out| && |count| == range
    && (forall v :: 0 <= v < range ==> count[v] == Before(s, min, v) + Occ(s[..i], min + v))
    && (forall v :: 0 <= v < range ==> StretchIs(out, count[v], Class(SortKey, s[i..], [min + v])))
  }

  ghost predicate StretchIs(out: seq<Entry>, at: nat, c: seq<Entry>) {
    at + |c| <= |out| && out[at..at + |c|] == c
  }

  lemma OccSplit(s: seq<Entry>, i: nat, key: int)
    requires i <= |s|
    ensures Occ(s, key) == Occ(s[..i], key) + |Class(SortKey, s[i..], [key])|
  {
    assert s == s[..i] + s[i..];
    OccConcat(s[..i], s[i..], key);
  }

  // The entry before the placed ones is the next of its key's class.
  lemma NextOfClass(s: seq<Entry>, i: nat, key: int)
    requires 0 < i <= |s|
    ensures Class(SortKey, s[i - 1..], [key]) ==
      (if s[i - 1].sortKey == key then [s[i - 1]] else []) + Class(SortKey, s[i..], [key])
    ensures Occ(s[..i], key) == Occ(s[..i - 1], key) + if s[i - 1].sortKey == key then 1 else 0
  {
    assert s[i - 1..] == [s[i - 1]] + s[i..];
    ClassConcat(SortKey, [s[i - 1]], s[i..], [key]);
    OccOne(s[i - 1], key);
    ClassKeys(SortKey, [s[i - 1]], [key]);
    assert s[..i] == s[..i - 1] + [s[i - 1]];
    OccConcat(s[..i - 1], [s[i - 1]], key);
    assert [s[i - 1]][1..] == [];
    assert [s[i - 1].sortKey] == [key] <==> s[i - 1].sortKey == key;
  }

  // Stretches of different keys do not meet.
  lemma PlaceApart(s: seq<Entry>, min: nat, range: nat, i: nat, out: seq<Entry>, count: seq<nat>, v: nat, w: nat)
    requires Placed(s, min, range, i, out, count) && v < range && w < range && v != w && 0 < i
      && s[i - 1].sortKey == min + v
    ensures 0 < count[v] && Before(s, min, v) <= count[v] - 1
    ensures count[v] - 1 < count[w] || count[v] - 1 >= count[w] + |Class(SortKey, s[i..], [min + w])|
  {
    NextOfClass(s, i, min + v);
    OccSplit(s, i, min + v);
    OccSplit(s, i, min + w);
    if v < w {
      BeforeGrows(s, min, v, w);
    } else {
      BeforeGrows(s, min, w, v);
    }
  }

  lemma PlaceOne(s: seq<Entry>, min: nat, range: nat, i: nat, out: seq<Entry>, count: seq<nat>)
    requires Placed(s, min, range, i, out, count) && 0 < i && min <= s[i - 1].sortKey < min + range
    ensures var v := s[i - 1].sortKey - min;
      0 < count[v] <= |out| && Placed(s, min, range, i - 1, out[count[v] - 1 := s[i - 1]], count[v := count[v] - 1])
  {
    hide Class, Before, Occ;
    var e, v := s[i - 1], s[i - 1].sortKey - min;
    NextOfClass(s, i, min + v);
    StretchFits(s, min, range, i, out, count, v);
    var out', count' := out[count[v] - 1 := e], count[v := count[v] - 1];
    forall w | 0 <= w < range
      ensures count'[w] == Before(s, min, w) + Occ(s[..i - 1], min + w)
      ensures StretchIs(out', count'[w], Class(SortKey, s[i - 1..], [min + w]))
    {
      NextOfClass(s, i, min + w);
      StretchFits(s, min, range, i, out, count, w);
      if w != v {
        PlaceApart(s, min, range, i, out, count, v, w);
      }
    }
  }

  lemma StretchFits(s: seq<Entry>, min: nat, range: nat, i: nat, out: seq<Entry>, count: seq<nat>, v: nat)
    requires Placed(s, min, range, i, out, count) && v < range
    ensures var c := Class(SortKey, s[i..], [min + v]); count[v] + |c| <= |out| && out[count[v]..count[v] + |c|] == c
    ensures count[v] == Before(s, min, v) + Occ(s[..i], min + v)
  {
    assert StretchIs(out, count[v], Class(SortKey, s[i..], [min + v]));
  }

  lemma {:induction false} BeforeCons(e: Entry, s: seq<Entry>, min: nat, v: nat)
    requires min <= e.sortKey
    ensures Before([e] + s, min, v) == Before(s, min, v) + if e.sortKey < min + v then 1 else 0
  {
    hide Occ;
    if v > 0 {
      BeforeCons(e, s, min, v - 1);
      OccConcat([e], s, min + v - 1);
      OccOne(e, min + v - 1);
    }
  }

  lemma {:induction false} BeforeNothing(min: nat, v: nat)
    ensures Before([], min, v) == 0
  {
    if v > 0 {
      BeforeNothing(min, v - 1);
    }
  }

  lemma {:induction false} BeforeAll(s: seq<Entry>, min: nat, range: nat)
    requires InRange(s, min, range)
    ensures Before(s, min, range) == |s|
  {
    if s == [] {
      BeforeNothing(min, range);
    } else {
      BeforeAll(s[1..], min, range);
      assert s == [s[0]] + s[1..];
      BeforeCons(s[0], s[1..], min, range);
    }
  }

  lemma PlacedNone(s: seq<Entry>, min: nat, range: nat, out: seq<Entry>, count: seq<nat>)
    requires InRange(s, min, range) && |out| == |s| && |count| == range
    requires forall v :: 0 <= v < range ==> count[v] == Before(s, min, v + 1)
    ensures Placed(s, min, range, |s|, out, count)
  {
    BeforeAll(s, min, range);
    assert s[..|s|] == s && s[|s|..] == [];
    forall v | 0 <= v < range ensures count[v] <= |out| && Class(SortKey, s[|s|..], [min + v]) == [] {
      BeforeGrows(s, min, v + 1, range);
    }
  }

  // ---- the classes one after the other

  ghost function Buckets(s: seq<Entry>, min: nat, v: nat): (r: seq<Entry>)
    ensures |r| == Before(s, min, v)
  {
    if v == 0 then [] else Buckets(s, min, v - 1) + Class(SortKey, s, [min + v - 1])
  }

  lemma {:induction false} PlacedAll(s: seq<Entry>, min: nat, range: nat, out: seq<Entry>, count: seq<nat>, v: nat)
    requires Placed(s, min, range, 0, out, count) && v <= range && Before(s, min, v) <= |out|
    ensures out[..Before(s, min, v)] == Buckets(s, min, v)
  {
    hide Class, Occ, Placed;
    if v > 0 {
      PlacedAll(s, min, range, out, count, v - 1);
      StretchFits(s, min, range, 0, out, count, v - 1);
      assert s[0..] == s && s[..0] == [];
      OccNone(min + v - 1);
      var b := Before(s, min, v - 1);
      assert out[..Before(s, min, v)] == out[..b] + out[b..Before(s, min, v)];
    }
  }

  lemma {:induction false} ClassAgain(s: seq<Entry>, k: seq<int>, k': seq<int>)
    ensures Class(SortKey, Class(SortKey, s, k), k') == if k == k' then Class(SortKey, s, k) else []
  {
    if s != [] {
      ClassAgain(s[1..], k, k');
      if Key(SortKey, s[0]) == k {
        ClassConcat(SortKey, [s[0]], Class(SortKey, s[1..], k), k');
        assert [s[0]][1..] == [];
      }
    }
  }

  lemma {:induction false} BucketClass(s: seq<Entry>, min: nat, v: nat, k: seq<int>)
    ensures Class(SortKey, Buckets(s, min, v), k) == if |k| == 1 && min <= k[0] < min + v then Class(SortKey, s, k)
      else []
  {
    if v > 0 {
      BucketClass(s, min, v - 1, k);
      ClassConcat(SortKey, Buckets(s, min, v - 1), Class(SortKey, s, [min + v - 1]), k);
      ClassAgain(s, [min + v - 1], k);
      assert k == [min + v - 1] <==> |k| == 1 && k[0] == min + v - 1;
    }
  }

  lemma {:induction false} BucketOrder(s: seq<Entry>, min: nat, v: nat)
    ensures forall i :: 0 <= i < |Buckets(s, min, v)| ==> Buckets(s, min, v)[i].sortKey < min + v
    ensures forall i, j :: 0 <= i < j < |Buckets(s, min, v)| ==>
      Buckets(s, min, v)[i].sortKey <= Buckets(s, min, v)[j].sortKey
  {
    if v > 0 {
      BucketOrder(s, min, v - 1);
      var b, c := Buckets(s, min, v - 1), Class(SortKey, s, [min + v - 1]);
      ClassKeys(SortKey, s, [min + v - 1]);
      forall i | 0 <= i < |c| ensures c[i].sortKey == min + v - 1 {
        assert Key(SortKey, c[i]) == [min + v - 1];
        assert [c[i].sortKey][0] == [min + v - 1][0];
      }
    }
  }

  lemma BucketsAreStable(s: seq<Entry>, min: nat, range: nat)
    requires InRange(s, min, range)
    ensures IsStableSort(SortKey, s, Buckets(s, min, range))
  {
    var t := Buckets(s, min, range);
    BucketOrder(s, min, range);
    forall i, j | 0 <= i < j < |t| ensures Leq(SortKey, t[i], t[j]) {
      assert t[i].sortKey <= t[j].sortKey;
    }
    forall k ensures Class(SortKey, s, k) == Class(SortKey, t, k) {
      BucketClass(s, min, range, k);
      ClassEmpty(SortKey, s, k);
    }
  }

  /** The last loop: from the back, each entry to the end of what its key has left. */
  method Place(files: array<Entry>, min: nat, ends: seq<nat>) returns (output: seq<Entry>)
    requires InRange(files[..], min, |ends|)
    requires forall v :: 0 <= v < |ends| ==> ends[v] == Before(files[..], min, v + 1)
    ensures IsStableSort(SortKey, files[..], output)
  {
    hide Placed, Before, IsStableSort;
    ghost var s, range := files[..], |ends|;
    var count := ends;
    output := files[..];
    PlacedNone(s, min, range, output, count);
    for i := files.Length downto 0
      invariant |output| == |s| && |count| == range && Placed(s, min, range, i, output, count)
    {
      var e := files[i];
      assert e == s[i];
      PlaceOne(s, min, range, i + 1, output, count);
      var index := e.sortKey - min;
      output := output[count[index] - 1 := e];
      count := count[index := count[index] - 1];
    }
    BeforeAll(s, min, range);
    PlacedAll(s, min, range, output, count, range);
    assert output[..|s|] == output;
    BucketsAreStable(s, min, range);
  }

  method MinMax(files: array<Entry>) returns (min: nat, max: nat)
    requires files.Length > 0
    ensures min <= max && InRange(files[..], min, max - min + 1)
    ensures exists i, j ::
      0 <= i < files.Length && 0 <= j < files.Length && files[i].sortKey == min && files[j].sortKey == max
  {
    min, max := files[0].sortKey, files[0].sortKey;
    ghost var x, y := 0, 0;
    for i := 1 to files.Length
      invariant min <= max && 0 <= x < files.Length && 0 <= y < files.Length && files[x].sortKey == min
        && files[y].sortKey == max
      invariant forall j :: 0 <= j < i ==> min <= files[j].sortKey <= max
    {
      if files[i].sortKey < min {
        min := files[i].sortKey;
        x := i;
      }
      if files[i].sortKey > max {
        max := files[i].sortKey;
        y := i;
      }
    }
  }

  // Sort keys whose range fits an int
  ghost predicate Narrow(s: seq<Entry>) {
    forall i, j :: 0 <= i < |s| && 0 <= j < |s| ==> s[j].sortKey - s[i].sortKey < INT_MAX
  }

  /** parallel_counting_sort: the stable sort by sort key, for every interleaving of the counting threads. */
  method ParallelCountingSort(files: array<Entry>, scheduler: nat -> seq<nat>)
    requires files.Length > 0 && Narrow(files[..])
    requires forall range: nat :: Complete(scheduler(range), THREAD_COUNT, range)
    modifies files
    ensures IsStableSort(SortKey, old(files[..]), files[..])
  {
    hide IsStableSort, Before, Complete;
    var min, max := MinMax(files);
    var range := max - min + 1;
    assert range <= INT_MAX;
    var count := CountAll(files, min, range, scheduler(range));
    var ends := Accumulate(files[..], min, count);
    var output := Place(files, min, ends);
    StableLength(SortKey, files[..], output);
    CopyBack(files, 0, output);
    assert files[0..|output|] == files[..];
  }

  lemma StableLength(col: Column, s: seq<Entry>, t: seq<Entry>)
    requires IsStableSort(col, s, t)
    ensures |t| == |s|
  {
    StableSortPermutes(col, s, t);
  }

  // ---- sort_files

  // What preprocess_sort_keys stores; hash stands for hash_string and hash_timestamp.
  function WithKey(e: Entry, col: Column, hash: seq<Char> -> nat): Entry
    requires e.id >= 0
  {
    match col
    case Id => e.(sortKey := e.id)
    case Name => e.(sortKey := hash(e.name))
    case Timestamp => e.(sortKey := hash(e.timestamp))
    case SortKey => e
  }

  ghost function Keyed(s: seq<Entry>, col: Column, hash: seq<Char> -> nat): (t: seq<Entry>)
    requires forall i :: 0 <= i < |s| ==> s[i].id >= 0
  {
    seq(|s|, i requires 0 <= i < |s| => WithKey(s[i], col, hash))
  }

  method PreprocessSortKeys(files: array<Entry>, col: Column, hash: seq<Char> -> nat)
    requires forall i :: 0 <= i < files.Length ==> files[i].id >= 0
    modifies files
    ensures files[..] == Keyed(old(files[..]), col, hash)
  {
    for i := 0 to files.Length
      invariant forall j :: 0 <= j < i ==> files[j] == WithKey(old(files[j]), col, hash)
      invariant forall j :: i <= j < files.Length ==> files[j] == old(files[j])
    {
      files[i] := WithKey(files[i], col, hash);
    }
  }

  /**
   sort_files.  By id the result is the stable sort by id, whichever algorithm
   is chosen; by name or timestamp the small inputs go by hash.
   */
  method SortFiles(files: array<Entry>, col: Column, hash: seq<Char> -> nat, scheduler: nat -> seq<nat>)
    requires files.Length > 0 && col != SortKey && forall i :: 0 <= i < files.Length ==> files[i].id >= 0
    requires files.Length <= LAZY_THRESHOLD ==> Narrow(Keyed(files[..], col, hash))
    requires forall range: nat :: Complete(scheduler(range), THREAD_COUNT, range)
    modifies files
    ensures var s := Keyed(old(files[..]), col, hash);
      IsStableSort(if col != Id && files.Length <= LAZY_THRESHOLD then SortKey else col, s, files[..])
  {
    hide IsStableSort, Complete;
    PreprocessSortKeys(files, col, hash);
    ghost var s := files[..];
    if files.Length <= LAZY_THRESHOLD {
      ParallelCountingSort(files, scheduler);
      if col == Id {
        ById(s, files[..]);
      }
    } else {
      ParallelMergeSort(files, 0, files.Length, col);
      assert files[0..files.Length] == files[..] && old(files[..]) == old(files[0..files.Length]);
      assert s[0..|s|] == s;
    }
  }

  // A stable sort by sort key is one by id when the keys are the ids.
  lemma ById(s: seq<Entry>, t: seq<Entry>)
    requires IsStableSort(SortKey, s, t) && forall i :: 0 <= i < |s| ==> s[i].id == s[i].sortKey
    ensures IsStableSort(Id, s, t)
  {
    KeysAgree(s, t);
    forall k ensures Class(Id, s, k) == Class(Id, t, k) {
      SameKeysSameClass(Id, SortKey, s, k);
      SameKeysSameClass(Id, SortKey, t, k);
      assert Class(SortKey, s, k) == Class(SortKey, t, k);
    }
    forall i, j | 0 <= i < j < |t| ensures Leq(Id, t[i], t[j]) {
      assert Leq(SortKey, t[i], t[j]);
    }
  }

  /** On ids the two algorithms give the same array. */
  lemma SortsAgree(s: seq<Entry>, merged: seq<Entry>, counted: seq<Entry>)
    requires forall i :: 0 <= i < |s| ==> s[i].id == s[i].sortKey
    requires IsStableSort(Id, s, merged) && IsStableSort(SortKey, s, counted)
    ensures merged == counted
  {
    ById(s, counted);
    StableSortIsUnique(Id, s, merged, counted);
  }
}
