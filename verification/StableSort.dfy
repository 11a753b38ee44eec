/**
 What concurrency/Distributed-Sorting is for: files in the order of a column,
 files that tie in the order they came.  A result with these two properties is
 the only one.
 */
module StableSort {
  type Char = c: int | 0 < c < 256 witness 1

  datatype Entry = Entry(name: seq<Char>, id: int, timestamp: seq<Char>, sortKey: nat)

  // The three columns, and the sort key that counting sort goes by.
  datatype Column = Id | Name | Timestamp | SortKey

  function Key(col: Column, e: Entry): seq<int> {
    match col
    case Id => [e.id]
    case Name => e.name
    case Timestamp => e.timestamp
    case SortKey => [e.sortKey]
  }

  // Lexicographic order, as a sign.
  function Lex(a: seq<int>, b: seq<int>): int {
    if a == [] then if b == [] then 0 else -1
    else if b == [] then 1
    else if a[0] < b[0] then -1
    else if a[0] > b[0] then 1
    else Lex(a[1..], b[1..])
  }

  lemma {:induction false} LexSame(a: seq<int>, b: seq<int>)
    ensures Lex(a, b) == 0 <==> a == b
    ensures Lex(b, a) == -Lex(a, b)
  {
    if a != [] && b != [] && a[0] == b[0] {
      LexSame(a[1..], b[1..]);
      assert a == [a[0]] + a[1..] && b == [b[0]] + b[1..];
    }
  }

  lemma {:induction false} LexTransitive(a: seq<int>, b: seq<int>, c: seq<int>)
    requires Lex(a, b) <= 0 && Lex(b, c) <= 0
    ensures Lex(a, c) <= 0 && (Lex(a, b) < 0 || Lex(b, c) < 0 ==> Lex(a, c) < 0)
  {
    if a != [] && b != [] && c != [] && a[0] == b[0] == c[0] {
      LexTransitive(a[1..], b[1..], c[1..]);
    }
  }

  predicate Leq(col: Column, a: Entry, b: Entry) {
    Lex(Key(col, a), Key(col, b)) <= 0
  }

  ghost predicate Ordered(col: Column, s: seq<Entry>) {
    forall i, j :: 0 <= i < j < |s| ==> Leq(col, s[i], s[j])
  }

  // The entries with one key, in their order.
  ghost function Class(col: Column, s: seq<Entry>, k: seq<int>): seq<Entry> {
    if s == [] then []
    else if Key(col, s[0]) == k then [s[0]] + Class(col, s[1..], k)
    else Class(col, s[1..], k)
  }

  ghost predicate SameClasses(col: Column, s: seq<Entry>, t: seq<Entry>) {
    forall k :: Class(col, s, k) == Class(col, t, k)
  }

  ghost predicate IsStableSort(col: Column, s: seq<Entry>, t: seq<Entry>) {
    Ordered(col, t) && SameClasses(col, s, t)
  }

  lemma {:induction false} ClassConcat(col: Column, s: seq<Entry>, t: seq<Entry>, k: seq<int>)
    ensures Class(col, s + t, k) == Class(col, s, k) + Class(col, t, k)
  {
    if s == [] {
      assert s + t == t;
    } else {
      assert (s + t)[1..] == s[1..] + t;
      ClassConcat(col, s[1..], t, k);
    }
  }

  // A class is empty exactly when no entry has the key.
  lemma {:induction false} ClassEmpty(col: Column, s: seq<Entry>, k: seq<int>)
    ensures Class(col, s, k) == [] <==> forall i :: 0 <= i < |s| ==> Key(col, s[i]) != k
  {
    if s != [] {
      ClassEmpty(col, s[1..], k);
      assert s == [s[0]] + s[1..];
    }
  }

  lemma {:induction false} ClassKeys(col: Column, s: seq<Entry>, k: seq<int>)
    ensures |Class(col, s, k)| <= |s|
    ensures forall i :: 0 <= i < |Class(col, s, k)| ==> Key(col, Class(col, s, k)[i]) == k
  {
    if s != [] {
      ClassKeys(col, s[1..], k);
    }
  }

  // ---- the stable sort is unique

  lemma SameFirst(col: Column, t: seq<Entry>, t': seq<Entry>)
    requires Ordered(col, t) && Ordered(col, t') && SameClasses(col, t, t') && t != [] && t' != []
    ensures t[0] == t'[0]
  {
    var k, k' := Key(col, t[0]), Key(col, t'[0]);
    ClassEmpty(col, t, k);
    ClassEmpty(col, t', k);
    ClassEmpty(col, t, k');
    ClassEmpty(col, t', k');
    var i :| 0 <= i < |t'| && Key(col, t'[i]) == k;
    var j :| 0 <= j < |t| && Key(col, t[j]) == k';
    LexSame(k, k');
    LexSame(k, k);
    LexSame(k', k');
    assert Leq(col, t[0], t[j]) && Leq(col, t'[0], t'[i]);
    assert Class(col, t, k)[0] == t[0] && Class(col, t', k)[0] == t'[0];
  }

  lemma {:induction false} Unique(col: Column, t: seq<Entry>, t': seq<Entry>)
    requires Ordered(col, t) && Ordered(col, t') && SameClasses(col, t, t')
    ensures t == t'
  {
    if t == [] {
      if t' != [] {
        ClassEmpty(col, t', Key(col, t'[0]));
      }
    } else if t' == [] {
      ClassEmpty(col, t, Key(col, t[0]));
    } else {
      SameFirst(col, t, t');
      forall k ensures Class(col, t[1..], k) == Class(col, t'[1..], k) {
        assert Class(col, t, k) == Class(col, t', k);
        if Key(col, t[0]) == k {
          assert Class(col, t, k)[1..] == Class(col, t[1..], k) && Class(col, t', k)[1..] == Class(col, t'[1..], k);
        }
      }
      Unique(col, t[1..], t'[1..]);
      assert t == [t[0]] + t[1..] && t' == [t'[0]] + t'[1..];
    }
  }

  lemma StableSortIsUnique(col: Column, s: seq<Entry>, t: seq<Entry>, t': seq<Entry>)
    requires IsStableSort(col, s, t) && IsStableSort(col, s, t')
    ensures t == t'
  {
    Unique(col, t, t');
  }

  // ---- and it is a permutation

  lemma {:induction false} CountInClass(col: Column, s: seq<Entry>, e: Entry)
    ensures multiset(s)[e] == multiset(Class(col, s, Key(col, e)))[e]
  {
    if s != [] {
      CountInClass(col, s[1..], e);
      assert s == [s[0]] + s[1..];
    }
  }

  lemma StableSortPermutes(col: Column, s: seq<Entry>, t: seq<Entry>)
    requires IsStableSort(col, s, t)
    ensures multiset(s) == multiset(t) && |s| == |t|
  {
    forall e ensures multiset(s)[e] == multiset(t)[e] {
      CountInClass(col, s, e);
      CountInClass(col, t, e);
      assert Class(col, s, Key(col, e)) == Class(col, t, Key(col, e));
    }
    assert multiset(s) == multiset(t);
    assert |multiset(s)| == |s| && |multiset(t)| == |t|;
  }

  // ---- agreement

  // Two columns with the same keys on s have the same stable sort.
  lemma {:induction false} SameKeysSameClass(col: Column, col': Column, s: seq<Entry>, k: seq<int>)
    requires forall i :: 0 <= i < |s| ==> Key(col, s[i]) == Key(col', s[i])
    ensures Class(col, s, k) == Class(col', s, k)
  {
    if s != [] {
      SameKeysSameClass(col, col', s[1..], k);
    }
  }

  // Sorting moves entries, and so keeps what holds of each.
  lemma KeysAgree(s: seq<Entry>, t: seq<Entry>)
    requires IsStableSort(SortKey, s, t) && forall i :: 0 <= i < |s| ==> s[i].id == s[i].sortKey
    ensures forall i :: 0 <= i < |t| ==> Key(Id, t[i]) == Key(SortKey, t[i])
  {
    StableSortPermutes(SortKey, s, t);
    forall i | 0 <= i < |t| ensures Key(Id, t[i]) == Key(SortKey, t[i]) {
      assert t[i] in multiset(t) && t[i] in multiset(s) && t[i] in s;
    }
  }
}
