/**
 compare_entries, get_min_entry, k_way_merge and parallel_merge_sort of
 concurrency/Distributed-Sorting/finaltry.c.  Each of the threads works on a
 part of the array that is its own, so the model makes their calls in turn.
 */
module MergeSort {
  import opened StableSort

  const K_WAY: nat := 4

  function Strcmp(a: seq<Char>, b: seq<Char>): int {
    if a == [] then if b == [] then 0 else 0 - b[0]
    else if b == [] then a[0]
    else if a[0] != b[0] then a[0] - b[0]
    else Strcmp(a[1..], b[1..])
  }

  function Compare(a: Entry, b: Entry, col: Column): int {
    match col
    case Id => (if a.id > b.id then 1 else 0) - (if a.id < b.id then 1 else 0)
    case Name => Strcmp(a.name, b.name)
    case Timestamp => Strcmp(a.timestamp, b.timestamp)
    case SortKey => 0
  }

  function Sign(x: int): int {
    if x < 0 then -1 else if x > 0 then 1 else 0
  }

  lemma {:induction false} StrcmpIsLex(a: seq<Char>, b: seq<Char>)
    ensures Sign(Strcmp(a, b)) == Lex(a, b)
  {
    if a != [] && b != [] && a[0] == b[0] {
      StrcmpIsLex(a[1..], b[1..]);
    }
  }

  lemma CompareIsOrder(a: Entry, b: Entry, col: Column)
    requires col != SortKey
    ensures Sign(Compare(a, b, col)) == Lex(Key(col, a), Key(col, b))
    ensures Compare(a, b, col) <= 0 <==> Leq(col, a, b)
    ensures Compare(a, b, col) < 0 <==> !Leq(col, b, a)
  {
    StrcmpIsLex(a.name, b.name);
    StrcmpIsLex(a.timestamp, b.timestamp);
    LexSame(Key(col, a), Key(col, b));
  }

  // ---- insertion sort

  lemma InsertOrdered(col: Column, s: seq<Entry>, p: nat, e: Entry)
    requires Ordered(col, s) && p <= |s|
    requires forall i :: 0 <= i < p ==> Leq(col, s[i], e)
    requires forall i :: p <= i < |s| ==> Leq(col, e, s[i])
    ensures Ordered(col, s[..p] + [e] + s[p..])
  {
    hide Leq;
  }

  lemma InsertSameClass(col: Column, lo: seq<Entry>, hi: seq<Entry>, e: Entry, k: seq<int>)
    requires forall i :: 0 <= i < |hi| ==> !Leq(col, hi[i], e)
    ensures Class(col, lo + hi + [e], k) == Class(col, lo + [e] + hi, k)
  {
    hide Class;
    ClassConcat(col, lo + hi, [e], k);
    ClassConcat(col, lo, hi, k);
    ClassConcat(col, lo + [e], hi, k);
    ClassConcat(col, lo, [e], k);
    ClassEmpty(col, hi, k);
    ClassEmpty(col, [e], k);
    LexSame(k, k);
  }

  // An entry goes after all that are not greater.
  lemma InsertPlace(col: Column, s: seq<Entry>, p: nat, e: Entry)
    requires Ordered(col, s) && p <= |s| && (p > 0 ==> Leq(col, s[p - 1], e))
    requires forall i :: p <= i < |s| ==> !Leq(col, s[i], e)
    ensures IsStableSort(col, s + [e], s[..p] + [e] + s[p..])
  {
    hide Class;
    forall i | 0 <= i < p ensures Leq(col, s[i], e) {
      if i < p - 1 {
        LexTransitive(Key(col, s[i]), Key(col, s[p - 1]), Key(col, e));
      }
    }
    forall i | p <= i < |s| ensures Leq(col, e, s[i]) {
      LexSame(Key(col, e), Key(col, s[i]));
    }
    InsertOrdered(col, s, p, e);
    forall k ensures Class(col, s + [e], k) == Class(col, s[..p] + [e] + s[p..], k) {
      assert s + [e] == s[..p] + s[p..] + [e];
      InsertSameClass(col, s[..p], s[p..], e, k);
    }
  }

  lemma StableStep(col: Column, s: seq<Entry>, t: seq<Entry>, e: Entry, u: seq<Entry>)
    requires IsStableSort(col, s, t) && IsStableSort(col, t + [e], u)
    ensures IsStableSort(col, s + [e], u)
  {
    forall k ensures Class(col, s + [e], k) == Class(col, u, k) {
      ClassConcat(col, s, [e], k);
      ClassConcat(col, t, [e], k);
      assert Class(col, s, k) == Class(col, t, k) && Class(col, t + [e], k) == Class(col, u, k);
    }
  }

  // f' is f with the entry at i moved down to place p after start, and those between moved up.
  ghost predicate Rotated(f: seq<Entry>, f': seq<Entry>, start: nat, p: nat, i: nat) {
    && start + p <= i < |f| && |f'| == |f|
    && (forall x :: 0 <= x < start + p ==> f'[x] == f[x])
    && f'[start + p] == f[i]
    && (forall x :: start + p < x <= i ==> f'[x] == f[x - 1])
    && (forall x :: i < x < |f| ==> f'[x] == f[x])
  }

  lemma RotatedParts(f: seq<Entry>, f': seq<Entry>, start: nat, p: nat, i: nat)
    requires Rotated(f, f', start, p, i)
    ensures var s := f[start..i];
      && start + p <= i && f'[start..i + 1] == s[..p] + [f[i]] + s[p..] && f[start..i + 1] == s + [f[i]]
      && f'[..start] == f[..start] && f'[i + 1..] == f[i + 1..]
  {
  }

  /** The inner loop: greater entries move up until the place for files[i] is open. */
  method Open(files: array<Entry>, start: nat, i: nat, col: Column) returns (p: nat)
    requires start <= i < files.Length && col != SortKey
    modifies files
    ensures Rotated(old(files[..]), files[..], start, p, i)
    ensures p > 0 ==> Leq(col, old(files[start + p - 1]), old(files[i]))
    ensures forall x :: start + p <= x < i ==> !Leq(col, old(files[x]), old(files[i]))
  {
    hide Leq, Compare, Shifted;
    ghost var f := files[..];
    var key := files[i];
    var j: int := i - 1;
    ShiftedNone(f, i);
    while j >= start && Compare(files[j], key, col) > 0
      invariant start - 1 <= j < i && Shifted(f, files[..], j, i)
      invariant forall x :: j < x < i ==> !Leq(col, f[x], key)
    {
      ShiftedOne(f, files[..], j, i);
      CompareIsOrder(key, files[j], col);
      CompareIsOrder(files[j], key, col);
      assert files[..][j + 1 := files[j]] == files[..][..j + 1] + [files[j]] + files[..][j + 2..];
      files[j + 1] := files[j];
      j := j - 1;
    }
    if j >= start {
      ShiftedOne(f, files[..], j, i);
      CompareIsOrder(files[j], key, col);
    }
    p := j + 1 - start;
    ShiftedDone(f, files[..], start, p, i);
    files[j + 1] := key;
  }

  // Entries j + 1 .. i have moved up by one; place j + 1 is open.
  ghost predicate Shifted(f: seq<Entry>, g: seq<Entry>, j: int, i: nat) {
    && |g| == |f| && -1 <= j < i < |f|
    && (forall x :: 0 <= x <= j || i < x < |f| ==> g[x] == f[x])
    && (forall x :: j + 1 < x <= i ==> g[x] == f[x - 1])
  }

  lemma ShiftedNone(f: seq<Entry>, i: nat)
    requires i < |f|
    ensures Shifted(f, f, i - 1, i)
  {
  }

  lemma ShiftedOne(f: seq<Entry>, g: seq<Entry>, j: int, i: nat)
    requires Shifted(f, g, j, i) && 0 <= j
    ensures |g| == |f| && g[j] == f[j] && Shifted(f, g[j + 1 := g[j]], j - 1, i)
  {
  }

  lemma ShiftedDone(f: seq<Entry>, g: seq<Entry>, start: nat, p: nat, i: nat)
    requires Shifted(f, g, start + p - 1, i)
    ensures |g| == |f| && Rotated(f, g[start + p := f[i]], start, p, i)
  {
  }

  /** One turn of the insertion sort: files[i] into its place among files[start..i]. */
  method Insert(files: array<Entry>, start: nat, i: nat, col: Column)
    requires start <= i < files.Length && col != SortKey && Ordered(col, files[start..i])
    modifies files
    ensures IsStableSort(col, old(files[start..i + 1]), files[start..i + 1])
    ensures files[..start] == old(files[..start]) && files[i + 1..] == old(files[i + 1..])
  {
    hide Leq, IsStableSort, Ordered, Rotated;
    ghost var f := files[..];
    assert f[start..i] == files[start..i];
    var p := Open(files, start, i, col);
    RotatedParts(f, files[..], start, p, i);
    InsertPlace(col, f[start..i], p, f[i]);
  }

  lemma StableSingle(col: Column, s: seq<Entry>)
    requires |s| <= 1
    ensures IsStableSort(col, s, s)
  {
  }

  method InsertionSort(files: array<Entry>, start: nat, end: nat, col: Column)
    requires start < end <= files.Length && col != SortKey
    modifies files
    ensures IsStableSort(col, old(files[start..end]), files[start..end])
    ensures files[..start] == old(files[..start]) && files[end..] == old(files[end..])
  {
    hide IsStableSort, Ordered;
    ghost var f := files[..];
    StableSingle(col, f[start..start + 1]);
    assert files[start..start + 1] == f[start..start + 1];
    for i := start + 1 to end
      invariant IsStableSort(col, f[start..i], files[start..i])
      invariant files[..start] == f[..start] && files[i..] == f[i..]
    {
      ghost var t := files[start..i];
      StableIsOrdered(col, f[start..i], t);
      assert files[i] == f[i] by {
        assert files[i..][0] == f[i..][0];
      }
      assert files[start..i + 1] == t + [f[i]];
      Insert(files, start, i, col);
      StableStep(col, f[start..i], t, f[i], files[start..i + 1]);
      assert f[start..i + 1] == f[start..i] + [f[i]];
      assert f[i..][1..] == f[i + 1..];
    }
  }

  lemma StableIsOrdered(col: Column, s: seq<Entry>, t: seq<Entry>)
    requires IsStableSort(col, s, t)
    ensures Ordered(col, t)
  {
  }

  // ---- k-way merge

  // What is left of one queue: files[index..end].
  datatype Queue = Queue(index: nat, end: nat)

  ghost predicate Inside(f: seq<Entry>, qs: seq<Queue>) {
    forall i :: 0 <= i < |qs| ==> qs[i].index <= qs[i].end <= |f|
  }

  ghost function Flat(f: seq<Entry>, qs: seq<Queue>): seq<Entry>
    requires Inside(f, qs)
  {
    if qs == [] then [] else f[qs[0].index..qs[0].end] + Flat(f, qs[1..])
  }

  // e comes before or with everything left.
  ghost predicate Below(col: Column, e: Entry, f: seq<Entry>, qs: seq<Queue>) {
    forall i, p :: 0 <= i < |qs| && qs[i].index <= p < qs[i].end && p < |f| ==> Leq(col, e, f[p])
  }

  ghost predicate QueuesOrdered(col: Column, f: seq<Entry>, qs: seq<Queue>) {
    forall i, p, q :: 0 <= i < |qs| && qs[i].index <= p < q < qs[i].end && q < |f| ==> Leq(col, f[p], f[q])
  }

  // Of the first n queues m has the smallest head, and it is the first that has.
  ghost predicate FirstMin(col: Column, f: seq<Entry>, qs: seq<Queue>, n: nat, m: nat) {
    && Inside(f, qs) && m < n <= |qs| && qs[m].index < qs[m].end
    && (forall i :: 0 <= i < n && qs[i].index < qs[i].end ==> Leq(col, f[qs[m].index], f[qs[i].index]))
    && (forall i :: 0 <= i < m && qs[i].index < qs[i].end ==> !Leq(col, f[qs[i].index], f[qs[m].index]))
  }

  /** get_min_entry; -1 is for queues that are all empty. */
  method GetMinEntry(files: array<Entry>, qs: seq<Queue>, col: Column) returns (m: int)
    requires Inside(files[..], qs) && col != SortKey
    ensures -1 <= m < |qs|
    ensures m == -1 ==> forall i :: 0 <= i < |qs| ==> qs[i].index == qs[i].end
    ensures m >= 0 ==> FirstMin(col, files[..], qs, |qs|, m)
  {
    hide Leq, Compare;
    m := -1;
    for i := 0 to |qs|
      invariant -1 <= m < i
      invariant m == -1 ==> forall x :: 0 <= x < i ==> qs[x].index == qs[x].end
      invariant m >= 0 ==> FirstMin(col, files[..], qs, i, m)
    {
      if qs[i].index < qs[i].end {
        MinStep(col, files[..], qs, m, i);
        if m == -1 || Compare(files[qs[i].index], files[qs[m].index], col) < 0 {
          m := i;
        }
      }
    }
  }

  lemma MinStep(col: Column, f: seq<Entry>, qs: seq<Queue>, m: int, i: nat)
    requires Inside(f, qs) && -1 <= m < i < |qs| && qs[i].index < qs[i].end && col != SortKey
    requires m == -1 ==> forall x :: 0 <= x < i ==> qs[x].index == qs[x].end
    requires m >= 0 ==> FirstMin(col, f, qs, i, m)
    ensures FirstMin(col, f, qs, i + 1, if m == -1 || Compare(f[qs[i].index], f[qs[m].index], col) < 0 then i else m)
  {
    hide Leq, Compare;
    var x := f[qs[i].index];
    LeqSelf(col, x);
    if m >= 0 {
      var y := f[qs[m].index];
      CompareIsOrder(x, y, col);
      LeqTotal(col, x, y);
      if Compare(x, y, col) < 0 {
        forall j | 0 <= j < i && qs[j].index < qs[j].end
          ensures Leq(col, x, f[qs[j].index]) && !Leq(col, f[qs[j].index], x)
        {
          LeqThrough(col, x, y, f[qs[j].index]);
        }
      }
    }
  }

  lemma LeqSelf(col: Column, x: Entry)
    ensures Leq(col, x, x)
  {
    LexSame(Key(col, x), Key(col, x));
  }

  lemma LeqTotal(col: Column, x: Entry, y: Entry)
    ensures Leq(col, x, y) || Leq(col, y, x)
  {
    LexSame(Key(col, x), Key(col, y));
  }

  // x < y <= z gives x < z; x <= y <= z gives x <= z.
  lemma LeqThrough(col: Column, x: Entry, y: Entry, z: Entry)
    ensures Leq(col, x, y) && Leq(col, y, z) ==> Leq(col, x, z)
    ensures !Leq(col, y, x) && Leq(col, y, z) ==> Leq(col, x, z) && !Leq(col, z, x)
  {
    var a, b, c := Key(col, x), Key(col, y), Key(col, z);
    LexSame(a, b);
    LexSame(a, c);
    if Lex(a, b) <= 0 && Lex(b, c) <= 0 {
      LexTransitive(a, b, c);
    }
  }

  lemma {:induction false} FlatConcat(f: seq<Entry>, qs: seq<Queue>, rs: seq<Queue>)
    requires Inside(f, qs) && Inside(f, rs)
    ensures Inside(f, qs + rs) && Flat(f, qs + rs) == Flat(f, qs) + Flat(f, rs)
  {
    if qs == [] {
      assert qs + rs == rs;
    } else {
      assert (qs + rs)[1..] == qs[1..] + rs;
      FlatConcat(f, qs[1..], rs);
    }
  }

  function Popped(qs: seq<Queue>, m: nat): seq<Queue>
    requires m < |qs|
  {
    qs[m := Queue(qs[m].index + 1, qs[m].end)]
  }

  lemma FlatAround(f: seq<Entry>, before: seq<Queue>, q: Queue, after: seq<Queue>)
    requires Inside(f, before) && Inside(f, after) && q.index <= q.end <= |f|
    ensures Inside(f, before + ([q] + after))
    ensures Flat(f, before + ([q] + after)) == Flat(f, before) + (f[q.index..q.end] + Flat(f, after))
  {
    assert ([q] + after)[1..] == after;
    FlatConcat(f, before, [q] + after);
  }

  // Popping queue m takes its head out of the middle.
  lemma PopFlat(f: seq<Entry>, qs: seq<Queue>, m: nat)
    requires Inside(f, qs) && m < |qs| && qs[m].index < qs[m].end
    ensures Inside(f, qs[..m]) && Inside(f, qs[m + 1..]) && Inside(f, Popped(qs, m))
    ensures var rest := f[qs[m].index + 1..qs[m].end] + Flat(f, qs[m + 1..]);
      && Flat(f, qs) == Flat(f, qs[..m]) + ([f[qs[m].index]] + rest)
      && Flat(f, Popped(qs, m)) == Flat(f, qs[..m]) + rest
  {
    hide Flat;
    var q, before, after := qs[m], qs[..m], qs[m + 1..];
    Around(qs, m);
    FlatAround(f, before, q, after);
    FlatAround(f, before, Queue(q.index + 1, q.end), after);
    HeadOf(f, q.index, q.end, Flat(f, after));
  }

  lemma Around(qs: seq<Queue>, m: nat)
    requires m < |qs|
    ensures qs == qs[..m] + ([qs[m]] + qs[m + 1..])
    ensures Popped(qs, m) == qs[..m] + ([Queue(qs[m].index + 1, qs[m].end)] + qs[m + 1..])
  {
  }

  lemma HeadOf(f: seq<Entry>, i: nat, end: nat, rest: seq<Entry>)
    requires i < end <= |f|
    ensures f[i..end] + rest == [f[i]] + (f[i + 1..end] + rest)
  {
  }

  lemma {:induction false} NoKey(col: Column, f: seq<Entry>, qs: seq<Queue>, k: seq<int>)
    requires Inside(f, qs)
    requires forall i, p :: 0 <= i < |qs| && qs[i].index <= p < qs[i].end ==> Key(col, f[p]) != k
    ensures Class(col, Flat(f, qs), k) == []
  {
    if qs != [] {
      var seg := f[qs[0].index..qs[0].end];
      ClassConcat(col, seg, Flat(f, qs[1..]), k);
      forall p | 0 <= p < |seg| ensures Key(col, seg[p]) != k {
        assert seg[p] == f[qs[0].index + p];
      }
      ClassEmpty(col, seg, k);
      forall i, p | 0 <= i < |qs[1..]| && qs[1..][i].index <= p < qs[1..][i].end ensures Key(col, f[p]) != k {
        assert qs[1..][i] == qs[i + 1];
      }
      NoKey(col, f, qs[1..], k);
    }
  }

  // The queues before m hold nothing that ties with its head.
  lemma EarlierAreGreater(col: Column, f: seq<Entry>, qs: seq<Queue>, m: nat, i: nat, p: nat)
    requires FirstMin(col, f, qs, |qs|, m) && QueuesOrdered(col, f, qs) && i < m && qs[i].index <= p < qs[i].end
    ensures Key(col, f[p]) != Key(col, f[qs[m].index])
  {
    var x, h := f[qs[m].index], f[qs[i].index];
    LeqSelf(col, h);
    assert Leq(col, h, f[p]);
    LeqThrough(col, x, h, f[p]);
    LexSame(Key(col, f[p]), Key(col, x));
  }

  lemma HeadIsBelow(col: Column, f: seq<Entry>, qs: seq<Queue>, m: nat)
    requires FirstMin(col, f, qs, |qs|, m) && QueuesOrdered(col, f, qs)
    ensures Below(col, f[qs[m].index], f, qs)
  {
    hide Leq;
    var x := f[qs[m].index];
    forall i, p | 0 <= i < |qs| && qs[i].index <= p < qs[i].end && p < |f| ensures Leq(col, x, f[p]) {
      var h := f[qs[i].index];
      LeqSelf(col, h);
      LeqThrough(col, x, h, f[p]);
    }
  }

  // So popping takes the first of its class.
  lemma PopClass(col: Column, f: seq<Entry>, qs: seq<Queue>, m: nat, k: seq<int>)
    requires FirstMin(col, f, qs, |qs|, m) && QueuesOrdered(col, f, qs)
    ensures Inside(f, Popped(qs, m))
    ensures Class(col, Flat(f, qs), k) == Class(col, [f[qs[m].index]], k) + Class(col, Flat(f, Popped(qs, m)), k)
  {
    hide Class, Flat, Popped;
    var x := f[qs[m].index];
    PopFlat(f, qs, m);
    var pre, rest := Flat(f, qs[..m]), f[qs[m].index + 1..qs[m].end] + Flat(f, qs[m + 1..]);
    ClassConcat(col, pre, [x] + rest, k);
    ClassConcat(col, [x], rest, k);
    ClassConcat(col, pre, rest, k);
    ClassEmpty(col, [x], k);
    if Key(col, x) == k {
      forall i, p | 0 <= i < m && qs[i].index <= p < qs[i].end ensures Key(col, f[p]) != k {
        EarlierAreGreater(col, f, qs, m, i, p);
      }
      NoKey(col, f, qs[..m], k);
    }
  }

  // Between turns of the merge loop: out has been merged, the queues are left, all is what there was.
  ghost predicate Merging(col: Column, f: seq<Entry>, qs: seq<Queue>, out: seq<Entry>, all: seq<Entry>) {
    && Inside(f, qs) && QueuesOrdered(col, f, qs) && Ordered(col, out)
    && (forall o :: 0 <= o < |out| ==> Below(col, out[o], f, qs))
    && (forall k :: Class(col, out, k) + Class(col, Flat(f, qs), k) == Class(col, all, k))
    && |out| + |Flat(f, qs)| == |all|
  }

  lemma MergeOrder(col: Column, f: seq<Entry>, qs: seq<Queue>, out: seq<Entry>, m: nat)
    requires FirstMin(col, f, qs, |qs|, m) && QueuesOrdered(col, f, qs) && Ordered(col, out)
    requires forall o :: 0 <= o < |out| ==> Below(col, out[o], f, qs)
    ensures var out' := out + [f[qs[m].index]];
      && Ordered(col, out') && QueuesOrdered(col, f, Popped(qs, m))
      && forall o :: 0 <= o < |out'| ==> Below(col, out'[o], f, Popped(qs, m))
  {
    hide Leq;
    HeadIsBelow(col, f, qs, m);
    var out' := out + [f[qs[m].index]];
    forall o | 0 <= o < |out'| ensures Below(col, out'[o], f, Popped(qs, m)) {
      assert Below(col, out'[o], f, qs);
    }
  }

  lemma MergeStep(col: Column, f: seq<Entry>, qs: seq<Queue>, out: seq<Entry>, all: seq<Entry>, m: nat)
    requires Merging(col, f, qs, out, all) && FirstMin(col, f, qs, |qs|, m)
    ensures Merging(col, f, Popped(qs, m), out + [f[qs[m].index]], all)
  {
    hide Leq, Class, Flat, Popped, Ordered, QueuesOrdered, Below;
    MergeOrder(col, f, qs, out, m);
    PopFlat(f, qs, m);
    var x, qs' := f[qs[m].index], Popped(qs, m);
    forall k ensures Class(col, out + [x], k) + Class(col, Flat(f, qs'), k) == Class(col, all, k) {
      ClassConcat(col, out, [x], k);
      PopClass(col, f, qs, m, k);
      assert Class(col, out, k) + Class(col, Flat(f, qs), k) == Class(col, all, k);
    }
  }

  lemma {:induction false} AllEmpty(f: seq<Entry>, qs: seq<Queue>)
    requires Inside(f, qs) && forall i :: 0 <= i < |qs| ==> qs[i].index == qs[i].end
    ensures Flat(f, qs) == []
  {
    if qs != [] {
      AllEmpty(f, qs[1..]);
    }
  }

  lemma MergeDone(col: Column, f: seq<Entry>, qs: seq<Queue>, out: seq<Entry>, all: seq<Entry>)
    requires Merging(col, f, qs, out, all) && |out| == |all|
    ensures IsStableSort(col, all, out)
  {
    hide Leq, Flat;
    assert Flat(f, qs) == [];
    assert forall k :: Class(col, out, k) + Class(col, Flat(f, qs), k) == Class(col, out, k);
  }

  // ---- the parts

  // The i-th of k parts of start..end; the last takes the remainder.
  function Part(start: nat, end: nat, k: nat, i: nat): (q: Queue)
    requires start <= end && i < k
    ensures start <= q.index <= q.end <= end
    ensures i == k - 1 ==> q.end == end
    ensures i == 0 ==> q.index == start
  {
    var chunk := (end - start) / k;
    PartFits(end - start, k, i);
    Queue(start + i * chunk, if i == k - 1 then end else start + (i + 1) * chunk)
  }

  lemma {:induction false} Times(a: nat, b: nat, c: nat)
    requires a <= b
    ensures a * c <= b * c
  {
    if a < b {
      Times(a, b - 1, c);
    }
  }

  lemma PartFits(n: nat, k: nat, i: nat)
    requires i < k
    ensures i * (n / k) <= (i + 1) * (n / k) <= n
  {
    Times(i, i + 1, n / k);
    Times(i + 1, k, n / k);
  }

  ghost function Parts(start: nat, end: nat, k: nat, i: nat): (qs: seq<Queue>)
    requires start <= end && i <= k
    ensures |qs| == k - i && forall j :: 0 <= j < k - i ==> qs[j] == Part(start, end, k, i + j)
    decreases k - i
  {
    if i == k then [] else [Part(start, end, k, i)] + Parts(start, end, k, i + 1)
  }

  // The parts make up the whole.
  lemma {:induction false} PartsMakeWhole(f: seq<Entry>, start: nat, end: nat, k: nat, i: nat)
    requires start <= end <= |f| && i < k
    ensures Inside(f, Parts(start, end, k, i))
      && Flat(f, Parts(start, end, k, i)) == f[Part(start, end, k, i).index..end]
    decreases k - i
  {
    var q, qs := Part(start, end, k, i), Parts(start, end, k, i);
    if i + 1 < k {
      PartsMakeWhole(f, start, end, k, i + 1);
      assert qs[1..] == Parts(start, end, k, i + 1);
      assert q.end == Part(start, end, k, i + 1).index;
    } else {
      assert qs[1..] == [];
    }
  }

  // Parts of the same place and classes: the wholes have the same classes.
  lemma {:induction false} SamePartsSameWhole(col: Column, f: seq<Entry>, g: seq<Entry>, qs: seq<Queue>)
    requires Inside(f, qs) && Inside(g, qs)
    requires forall i :: 0 <= i < |qs| ==> SameClasses(col, f[qs[i].index..qs[i].end], g[qs[i].index..qs[i].end])
    ensures SameClasses(col, Flat(f, qs), Flat(g, qs))
  {
    hide Class;
    if qs != [] {
      SamePartsSameWhole(col, f, g, qs[1..]);
      var u, v := f[qs[0].index..qs[0].end], g[qs[0].index..qs[0].end];
      forall k ensures Class(col, Flat(f, qs), k) == Class(col, Flat(g, qs), k) {
        ClassConcat(col, u, Flat(f, qs[1..]), k);
        ClassConcat(col, v, Flat(g, qs[1..]), k);
        assert Class(col, u, k) == Class(col, v, k);
        assert Class(col, Flat(f, qs[1..]), k) == Class(col, Flat(g, qs[1..]), k);
      }
    }
  }

  // ---- the sort

  lemma MergeStart(col: Column, f: seq<Entry>, start: nat, end: nat, k: nat)
    requires start <= end <= |f| && k > 0 && PartsOrdered(col, f, start, end, k)
    ensures Merging(col, f, Parts(start, end, k, 0), [], f[start..end])
  {
    hide Leq, Class, QueuesOrdered, PartsOrdered, Flat;
    PartsMakeWhole(f, start, end, k, 0);
    forall c ensures Class(col, [], c) == [] {
      ClassEmpty(col, [], c);
    }
    PartsAreQueues(col, f, start, end, k);
  }

  lemma PartsAreQueues(col: Column, f: seq<Entry>, start: nat, end: nat, k: nat)
    requires start <= end <= |f| && PartsOrdered(col, f, start, end, k)
    ensures QueuesOrdered(col, f, Parts(start, end, k, 0))
  {
    hide Leq, Part;
    var qs := Parts(start, end, k, 0);
    forall i, p, q | 0 <= i < |qs| && qs[i].index <= p < q < qs[i].end && q < |f| ensures Leq(col, f[p], f[q]) {
      assert qs[i] == Part(start, end, k, i);
      var seg := f[qs[i].index..qs[i].end];
      assert Ordered(col, seg) && seg[p - qs[i].index] == f[p] && seg[q - qs[i].index] == f[q];
    }
  }

  ghost predicate PartsOrdered(col: Column, f: seq<Entry>, start: nat, end: nat, k: nat)
    requires start <= end <= |f|
  {
    forall i :: 0 <= i < k ==> Ordered(col, f[Part(start, end, k, i).index..Part(start, end, k, i).end])
  }

  /** k_way_merge: k sorted parts of files[start..end] become one, ties in the order of the parts. */
  method KWayMerge(files: array<Entry>, start: nat, end: nat, k: nat, col: Column)
    requires start <= end <= files.Length && k > 0 && col != SortKey && PartsOrdered(col, files[..], start, end, k)
    modifies files
    ensures IsStableSort(col, old(files[start..end]), files[start..end])
    ensures files[..start] == old(files[..start]) && files[end..] == old(files[end..])
  {
    hide Leq, Class, Ordered, Merging, FirstMin, IsStableSort, PartsOrdered;
    ghost var f := files[..];
    var qs: seq<Queue> := [];
    for i := 0 to k
      invariant |qs| == i && forall j :: 0 <= j < i ==> qs[j] == Part(start, end, k, j)
    {
      qs := qs + [Part(start, end, k, i)];
    }
    assert qs == Parts(start, end, k, 0);
    MergeStart(col, f, start, end, k);
    var output: seq<Entry> := [];
    while |output| < end - start
      invariant |output| <= end - start && files[..] == f && Merging(col, f, qs, output, f[start..end])
    {
      MergingFacts(col, f, qs, output, f[start..end]);
      var m := GetMinEntry(files, qs, col);
      if m == -1 {
        AllEmpty(f, qs);
        assert false;
      }
      MinFacts(col, f, qs, m);
      MergeStep(col, f, qs, output, f[start..end], m);
      MergingFacts(col, f, Popped(qs, m), output + [f[qs[m].index]], f[start..end]);
      output := output + [files[qs[m].index]];
      qs := Popped(qs, m);
    }
    MergeDone(col, f, qs, output, f[start..end]);
    CopyBack(files, start, output);
    assert f[start..end] == old(files[start..end]);
  }

  lemma MergingFacts(col: Column, f: seq<Entry>, qs: seq<Queue>, out: seq<Entry>, all: seq<Entry>)
    requires Merging(col, f, qs, out, all)
    ensures Inside(f, qs) && |out| + |Flat(f, qs)| == |all|
  {
  }

  lemma MinFacts(col: Column, f: seq<Entry>, qs: seq<Queue>, m: nat)
    requires FirstMin(col, f, qs, |qs|, m)
    ensures Inside(f, qs) && m < |qs| && qs[m].index < qs[m].end
  {
  }

  // memcpy of the output
  method CopyBack(files: array<Entry>, start: nat, output: seq<Entry>)
    requires start + |output| <= files.Length
    modifies files
    ensures files[start..start + |output|] == output
    ensures files[..start] == old(files[..start]) && files[start + |output|..] == old(files[start + |output|..])
  {
    for i := 0 to |output|
      invariant files[start..start + i] == output[..i]
      invariant files[..start] == old(files[..start]) && files[start + i..] == old(files[start + i..])
    {
      files[start + i] := output[i];
    }
  }

  lemma PartsApart(start: nat, end: nat, k: nat, j: nat, i: nat)
    requires start <= end && j < i < k
    ensures Part(start, end, k, j).end <= Part(start, end, k, i).index
  {
    Times(j + 1, i, (end - start) / k);
  }

  // Each of several parts is strictly shorter than the whole.
  lemma PartIsShorter(start: nat, end: nat, i: nat)
    requires end - start > K_WAY && i < K_WAY
    ensures var q := Part(start, end, K_WAY, i); q.end - q.index < end - start
  {
  }

  ghost predicate PartSorted(col: Column, f0: seq<Entry>, f: seq<Entry>, q: Queue)
    requires q.index <= q.end <= |f0| == |f|
  {
    IsStableSort(col, f0[q.index..q.end], f[q.index..q.end])
  }

  // The first i parts are sorted, the others and everything around them untouched.
  ghost predicate PartsDone(col: Column, f0: seq<Entry>, f: seq<Entry>, start: nat, end: nat, i: nat) {
    && start <= end <= |f0| == |f| && i <= K_WAY
    && (forall j :: 0 <= j < i ==> PartSorted(col, f0, f, Part(start, end, K_WAY, j)))
    && (forall j :: i <= j < K_WAY ==> var q := Part(start, end, K_WAY, j); f[q.index..q.end] == f0[q.index..q.end])
    && f[..start] == f0[..start] && f[end..] == f0[end..]
  }

  lemma SliceBefore(f: seq<Entry>, f': seq<Entry>, p: nat, lo: nat, hi: nat)
    requires p <= |f| == |f'| && f'[..p] == f[..p] && lo <= hi <= p
    ensures f'[lo..hi] == f[lo..hi]
  {
    assert f'[lo..hi] == f'[..p][lo..hi] && f[lo..hi] == f[..p][lo..hi];
  }

  lemma SliceAfter(f: seq<Entry>, f': seq<Entry>, p: nat, lo: nat, hi: nat)
    requires p <= |f| == |f'| && f'[p..] == f[p..] && p <= lo <= hi <= |f|
    ensures f'[lo..hi] == f[lo..hi]
  {
    forall x | lo <= x < hi ensures f'[x] == f[x] {
      assert f'[x] == f'[p..][x - p] && f[x] == f[p..][x - p];
    }
  }

  lemma OnePartMore(col: Column, f0: seq<Entry>, f: seq<Entry>, f': seq<Entry>, start: nat, end: nat, i: nat)
    requires PartsDone(col, f0, f, start, end, i) && i < K_WAY && |f'| == |f|
    requires var q := Part(start, end, K_WAY, i);
      f'[..q.index] == f[..q.index] && f'[q.end..] == f[q.end..]
        && IsStableSort(col, f[q.index..q.end], f'[q.index..q.end])
    ensures PartsDone(col, f0, f', start, end, i + 1)
  {
    hide IsStableSort, Part;
    var q := Part(start, end, K_WAY, i);
    forall j | 0 <= j < K_WAY && j != i
      ensures var r := Part(start, end, K_WAY, j); f'[r.index..r.end] == f[r.index..r.end]
    {
      var r := Part(start, end, K_WAY, j);
      if j < i {
        PartsApart(start, end, K_WAY, j, i);
        SliceBefore(f, f', q.index, r.index, r.end);
      } else {
        PartsApart(start, end, K_WAY, i, j);
        SliceAfter(f, f', q.end, r.index, r.end);
      }
    }
    SliceBefore(f, f', q.index, 0, start);
    SliceAfter(f, f', q.end, end, |f|);
  }

  lemma AllPartsDone(col: Column, f0: seq<Entry>, f: seq<Entry>, start: nat, end: nat)
    requires PartsDone(col, f0, f, start, end, K_WAY)
    ensures PartsOrdered(col, f, start, end, K_WAY) && SameClasses(col, f0[start..end], f[start..end])
  {
    hide Class, Ordered, Part, Flat;
    var qs := Parts(start, end, K_WAY, 0);
    PartsMakeWhole(f0, start, end, K_WAY, 0);
    PartsMakeWhole(f, start, end, K_WAY, 0);
    forall i | 0 <= i < K_WAY
      ensures Ordered(col, f[qs[i].index..qs[i].end])
      ensures SameClasses(col, f0[qs[i].index..qs[i].end], f[qs[i].index..qs[i].end])
    {
      assert PartSorted(col, f0, f, Part(start, end, K_WAY, i));
    }
    SamePartsSameWhole(col, f0, f, qs);
  }

  lemma NoPartDone(col: Column, f0: seq<Entry>, start: nat, end: nat)
    requires start <= end <= |f0|
    ensures PartsDone(col, f0, f0, start, end, 0)
  {
  }

  lemma AroundParts(col: Column, f0: seq<Entry>, f: seq<Entry>, start: nat, end: nat)
    requires PartsDone(col, f0, f, start, end, K_WAY)
    ensures |f0| == |f| && f[..start] == f0[..start] && f[end..] == f0[end..]
  {
  }

  lemma StableAfter(col: Column, s: seq<Entry>, t: seq<Entry>, u: seq<Entry>)
    requires SameClasses(col, s, t) && IsStableSort(col, t, u)
    ensures IsStableSort(col, s, u)
  {
    hide Class;
    forall k ensures Class(col, s, k) == Class(col, u, k) {
      assert Class(col, s, k) == Class(col, t, k) && Class(col, t, k) == Class(col, u, k);
    }
  }

  /** parallel_merge_sort of files[start..end]: the stable sort of that part, and nothing else is touched. */
  method ParallelMergeSort(files: array<Entry>, start: nat, end: nat, col: Column)
    requires start <= end <= files.Length && col != SortKey
    modifies files
    ensures IsStableSort(col, old(files[start..end]), files[start..end])
    ensures files[..start] == old(files[..start]) && files[end..] == old(files[end..])
    decreases end - start
  {
    hide Class, Ordered, IsStableSort, PartsDone, PartsOrdered, Part, SameClasses;
    if end - start <= 1 {
      StableSingle(col, files[start..end]);
      return;
    }
    if end - start - 1 <= K_WAY {
      InsertionSort(files, start, end, col);
      return;
    }
    ghost var f0 := files[..];
    NoPartDone(col, f0, start, end);
    for i := 0 to K_WAY
      invariant PartsDone(col, f0, files[..], start, end, i)
    {
      ghost var f := files[..];
      label before:
      var q := Part(start, end, K_WAY, i);
      PartIsShorter(start, end, i);
      ParallelMergeSort(files, q.index, q.end, col);
      assert f[q.index..q.end] == old@before(files[q.index..q.end]);
      OnePartMore(col, f0, f, files[..], start, end, i);
    }
    ghost var f := files[..];
    AllPartsDone(col, f0, f, start, end);
    AroundParts(col, f0, f, start, end);
    KWayMerge(files, start, end, K_WAY, col);
    StableAfter(col, f0[start..end], f[start..end], files[start..end]);
  }
}
