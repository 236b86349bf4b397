/** The two adjacent-swap bubble sorts over an array of process references,
    by arrival time and by burst time, proved equal to a stable sort. */
module Sorting {
  import opened Processes

  /** The processes of `s` whose field `f` equals `k`, in their order in `s`. */
  function WithKey(s: seq<Process>, f: Field, k: int): (r: seq<Process>)
    ensures |r| <= |s|
    ensures forall x :: x in r ==> x in s && Key(x, f) == k
  {
    if s == [] then []
    else if Key(s[0], f) == k then [s[0]] + WithKey(s[1..], f, k)
    else WithKey(s[1..], f, k)
  }

  lemma {:induction false} WithKeyAppend(a: seq<Process>, b: seq<Process>, f: Field, k: int)
    ensures WithKey(a + b, f, k) == WithKey(a, f, k) + WithKey(b, f, k)
  {
    if a == [] {
      assert a + b == b;
    } else {
      assert (a + b)[1..] == a[1..] + b;
      WithKeyAppend(a[1..], b, f, k);
    }
  }

  ghost predicate Sorted(s: seq<Process>, f: Field)
  {
    forall i, j :: 0 <= i < j < |s| ==> Key(s[i], f) <= Key(s[j], f)
  }

  /** `s` and `t` hold, for every key value, the same processes in the same
      order: a sort that keeps this is stable. */
  ghost predicate SameKeyRuns(s: seq<Process>, t: seq<Process>, f: Field)
  {
    forall k :: WithKey(s, f, k) == WithKey(t, f, k)
  }

  /** Inserts `x` in front of the first element whose key is not smaller. */
  function Insert(x: Process, t: seq<Process>, f: Field): seq<Process>
  {
    if t == [] || Key(x, f) <= Key(t[0], f) then [x] + t
    else [t[0]] + Insert(x, t[1..], f)
  }

  /** Reference stable sort: insertion sort, inserting each element in front
      of the equal keys that come after it. */
  function StableSort(s: seq<Process>, f: Field): seq<Process>
  {
    if s == [] then [] else Insert(s[0], StableSort(s[1..], f), f)
  }

  lemma {:induction false} InsertPermutes(x: Process, t: seq<Process>, f: Field)
    ensures multiset(Insert(x, t, f)) == multiset(t) + multiset{x}
  {
    if t != [] && Key(x, f) > Key(t[0], f) {
      InsertPermutes(x, t[1..], f);
      assert t == [t[0]] + t[1..];
    }
  }

  /** Every key of `t` is at least `b`. */
  ghost predicate KeysFrom(t: seq<Process>, f: Field, b: int)
  {
    forall j :: 0 <= j < |t| ==> b <= Key(t[j], f)
  }

  /** Inserting an element with a key of at least `b` keeps every key at least `b`. */
  lemma InsertKeysFrom(x: Process, t: seq<Process>, f: Field, b: int)
    requires KeysFrom(t, f, b) && b <= Key(x, f)
    ensures KeysFrom(Insert(x, t, f), f, b)
  {
    var r := Insert(x, t, f);
    InsertPermutes(x, t, f);
    forall j | 0 <= j < |r| ensures b <= Key(r[j], f) {
      assert r[j] in multiset(r);
      if r[j] != x {
        assert r[j] in multiset(t);
        var m :| 0 <= m < |t| && t[m] == r[j];
      }
    }
  }

  /** A sorted sequence stays sorted under a head with the least key. */
  lemma ConsSorted(h: Process, r: seq<Process>, f: Field)
    requires Sorted(r, f) && KeysFrom(r, f, Key(h, f))
    ensures Sorted([h] + r, f)
  {
    var u := [h] + r;
    forall i, j | 0 <= i < j < |u| ensures Key(u[i], f) <= Key(u[j], f) {
      assert u[j] == r[j - 1];
      if i > 0 {
        assert u[i] == r[i - 1];
      }
    }
  }

  lemma {:induction false} InsertSorted(x: Process, t: seq<Process>, f: Field)
    requires Sorted(t, f)
    ensures Sorted(Insert(x, t, f), f)
  {
    if t == [] || Key(x, f) <= Key(t[0], f) {
      assert KeysFrom(t, f, Key(x, f)) by {
        if t != [] {
          assert forall j :: 0 <= j < |t| ==> Key(t[0], f) <= Key(t[j], f);
        }
      }
      ConsSorted(x, t, f);
    } else {
      InsertSorted(x, t[1..], f);
      assert KeysFrom(t[1..], f, Key(t[0], f));
      InsertKeysFrom(x, t[1..], f, Key(t[0], f));
      ConsSorted(t[0], Insert(x, t[1..], f), f);
    }
  }

  lemma {:induction false} InsertKeyRuns(x: Process, t: seq<Process>, f: Field, k: int)
    ensures WithKey(Insert(x, t, f), f, k) == (if Key(x, f) == k then [x] else []) + WithKey(t, f, k)
  {
    if t == [] || Key(x, f) <= Key(t[0], f) {
      assert ([x] + t)[1..] == t;
    } else {
      InsertKeyRuns(x, t[1..], f, k);
      assert ([t[0]] + Insert(x, t[1..], f))[1..] == Insert(x, t[1..], f);
    }
  }

  /** The reference sort is ordered by the key. */
  lemma {:induction false} StableSortSorted(s: seq<Process>, f: Field)
    ensures Sorted(StableSort(s, f), f)
  {
    if s != [] {
      StableSortSorted(s[1..], f);
      InsertSorted(s[0], StableSort(s[1..], f), f);
    }
  }

  /** The reference sort is a permutation of its input. */
  lemma {:induction false} StableSortPermutes(s: seq<Process>, f: Field)
    ensures multiset(StableSort(s, f)) == multiset(s)
  {
    if s != [] {
      StableSortPermutes(s[1..], f);
      InsertPermutes(s[0], StableSort(s[1..], f), f);
      assert s == [s[0]] + s[1..];
    }
  }

  /** The reference sort is stable: equal keys keep their input order. */
  lemma {:induction false} StableSortKeepsRuns(s: seq<Process>, f: Field)
    ensures SameKeyRuns(StableSort(s, f), s, f)
  {
    if s != [] {
      StableSortKeepsRuns(s[1..], f);
      forall k ensures WithKey(StableSort(s, f), f, k) == WithKey(s, f, k) {
        InsertKeyRuns(s[0], StableSort(s[1..], f), f, k);
      }
    }
  }

  /** The first element of a sequence heads the run of its own key. */
  lemma WithKeyHead(s: seq<Process>, f: Field)
    requires s != []
    ensures WithKey(s, f, Key(s[0], f)) != [] && WithKey(s, f, Key(s[0], f))[0] == s[0]
  {
  }

  /** Dropping the first element drops it from its run and from no other. */
  lemma WithKeyTail(s: seq<Process>, f: Field, k: int)
    requires s != []
    ensures WithKey(s[1..], f, k) ==
            if Key(s[0], f) == k then WithKey(s, f, k)[1..] else WithKey(s, f, k)
  {
  }

  /** In a sequence sorted by the key, the first element has the least key. */
  lemma SortedHeadLeast(s: seq<Process>, f: Field, x: Process)
    requires Sorted(s, f) && x in s
    ensures Key(s[0], f) <= Key(x, f)
  {
    var m :| 0 <= m < |s| && s[m] == x;
    if m > 0 {
      assert Key(s[0], f) <= Key(s[m], f);
    }
  }

  /** Sequences with the same runs are empty together. */
  lemma RunsNonEmpty(r1: seq<Process>, r2: seq<Process>, f: Field)
    requires SameKeyRuns(r1, r2, f) && r1 != []
    ensures r2 != []
  {
    WithKeyHead(r1, f);
    assert WithKey(r2, f, Key(r1[0], f)) != [];
  }

  /** The first elements of two sorted sequences with the same runs agree. */
  lemma SortedRunsHead(r1: seq<Process>, r2: seq<Process>, f: Field)
    requires Sorted(r1, f) && Sorted(r2, f) && SameKeyRuns(r1, r2, f)
    requires r1 != [] && r2 != []
    ensures r1[0] == r2[0]
  {
    var k1, k2 := Key(r1[0], f), Key(r2[0], f);
    WithKeyHead(r1, f);
    WithKeyHead(r2, f);
    var w1, w2 := WithKey(r1, f, k1), WithKey(r2, f, k2);
    assert w1 == WithKey(r2, f, k1) && w2 == WithKey(r1, f, k2);
    SortedHeadLeast(r2, f, w1[0]);
    SortedHeadLeast(r1, f, w2[0]);
    assert k1 == k2;
  }

  /** Dropping equal first elements keeps the runs equal. */
  lemma RunsTail(r1: seq<Process>, r2: seq<Process>, f: Field)
    requires SameKeyRuns(r1, r2, f) && r1 != [] && r2 != [] && r1[0] == r2[0]
    ensures SameKeyRuns(r1[1..], r2[1..], f)
  {
    forall k ensures WithKey(r1[1..], f, k) == WithKey(r2[1..], f, k) {
      WithKeyTail(r1, f, k);
      WithKeyTail(r2, f, k);
      assert WithKey(r1, f, k) == WithKey(r2, f, k);
    }
  }

  lemma SortedTail(r: seq<Process>, f: Field)
    requires Sorted(r, f) && r != []
    ensures Sorted(r[1..], f)
  {
  }

  /** Two sequences that are both ordered by the key and have the same run of
      processes for every key value are equal: sortedness and stability
      determine the result of a sort. */
  lemma {:induction false} SortedRunsUnique(r1: seq<Process>, r2: seq<Process>, f: Field)
    requires Sorted(r1, f) && Sorted(r2, f) && SameKeyRuns(r1, r2, f)
    ensures r1 == r2
  {
    if r1 == [] {
      if r2 != [] {
        RunsNonEmpty(r2, r1, f);
      }
    } else {
      RunsNonEmpty(r1, r2, f);
      SortedRunsHead(r1, r2, f);
      RunsTail(r1, r2, f);
      SortedTail(r1, f);
      SortedTail(r2, f);
      SortedRunsUnique(r1[1..], r2[1..], f);
      assert r1 == [r1[0]] + r1[1..] && r2 == [r2[0]] + r2[1..];
    }
  }

  /** Swapping two neighbours with different keys changes no run. */
  lemma SwapKeepsRuns(s: seq<Process>, j: nat, f: Field)
    requires j + 1 < |s| && Key(s[j], f) != Key(s[j + 1], f)
    ensures SameKeyRuns(s[j := s[j + 1]][j + 1 := s[j]], s, f)
  {
    var t := s[j := s[j + 1]][j + 1 := s[j]];
    assert s == s[..j] + [s[j], s[j + 1]] + s[j + 2..];
    assert t == s[..j] + [s[j + 1], s[j]] + s[j + 2..];
    forall k ensures WithKey(t, f, k) == WithKey(s, f, k) {
      WithKeyAppend(s[..j] + [s[j], s[j + 1]], s[j + 2..], f, k);
      WithKeyAppend(s[..j], [s[j], s[j + 1]], f, k);
      WithKeyAppend(s[..j] + [s[j + 1], s[j]], s[j + 2..], f, k);
      WithKeyAppend(s[..j], [s[j + 1], s[j]], f, k);
      assert [s[j], s[j + 1]][1..] == [s[j + 1]];
      assert [s[j + 1], s[j]][1..] == [s[j]];
    }
  }

  /** Every key below `m` is at most every key from `m` on. */
  ghost predicate Split(s: seq<Process>, m: int, f: Field)
  {
    forall x, y :: 0 <= x < m <= y < |s| ==> Key(s[x], f) <= Key(s[y], f)
  }

  /** The cells from `m` on are in key order. */
  ghost predicate SortedFrom(s: seq<Process>, m: int, f: Field)
  {
    forall x, y :: m <= x < y < |s| && 0 <= x ==> Key(s[x], f) <= Key(s[y], f)
  }

  /** Cell `j` holds a largest key of the cells up to it. */
  ghost predicate MaxAt(s: seq<Process>, j: int, f: Field)
    requires 0 <= j < |s|
  {
    forall x :: 0 <= x <= j ==> Key(s[x], f) <= Key(s[j], f)
  }

  /** One compare-and-swap of the pass carries the largest key one cell up. */
  lemma PassStep(s: seq<Process>, t: seq<Process>, j: nat, m: nat, f: Field)
    requires j + 1 < m <= |s| && MaxAt(s, j, f) && Split(s, m, f)
    requires t == if Key(s[j], f) > Key(s[j + 1], f) then s[j := s[j + 1]][j + 1 := s[j]] else s
    ensures |t| == |s| && MaxAt(t, j + 1, f) && Split(t, m, f)
  {
    forall x | 0 <= x <= j + 1 ensures Key(t[x], f) <= Key(t[j + 1], f) {
      if x < j {
        assert t[x] == s[x];
      }
    }
    forall x, y | 0 <= x < m <= y < |t| ensures Key(t[x], f) <= Key(t[y], f) {
      assert t[y] == s[y];
      if x == j {
        assert Key(s[j + 1], f) <= Key(s[y], f);
      } else if x == j + 1 {
        assert Key(s[j], f) <= Key(s[y], f);
      } else {
        assert t[x] == s[x];
      }
    }
  }

  /** After a pass over the cells below `m`, the sorted tail grows by one. */
  lemma PassExtends(s: seq<Process>, t: seq<Process>, m: nat, f: Field)
    requires 1 <= m <= |s| == |t| && t[m..] == s[m..]
    requires SortedFrom(s, m, f) && Split(t, m, f) && MaxAt(t, m - 1, f)
    ensures SortedFrom(t, m - 1, f) && Split(t, m - 1, f)
  {
    forall x, y | m <= x < y < |t| ensures Key(t[x], f) <= Key(t[y], f) {
      assert t[x] == s[x] && t[y] == s[y];
    }
  }

  /** A sorted, run-preserving rearrangement is the reference stable sort. */
  lemma SortedIsStableSort(s: seq<Process>, orig: seq<Process>, f: Field)
    requires SortedFrom(s, 1, f) && Split(s, 1, f) && SameKeyRuns(s, orig, f)
    ensures s == StableSort(orig, f)
  {
    assert Sorted(s, f) by {
      forall x, y | 0 <= x < y < |s| ensures Key(s[x], f) <= Key(s[y], f) {
        if x >= 1 {
          assert SortedFrom(s, 1, f);
        }
      }
    }
    StableSortSorted(orig, f);
    StableSortKeepsRuns(orig, f);
    SortedRunsUnique(s, StableSort(orig, f), f);
  }

  /** One pass of the bubble sort over the cells below `m`: afterwards the
      cell at `m - 1` holds a largest key of them, and cells from `m` on are
      untouched. */
  method BubblePass(a: array<Process>, n: nat, m: nat, f: Field)
    requires 1 <= m <= n <= a.Length && Split(a[..n], m, f)
    modifies a
    ensures Split(a[..n], m, f) && MaxAt(a[..n], m - 1, f)
    ensures a[..n][m..] == old(a[..n][m..]) && a[n..] == old(a[n..])
    ensures SameKeyRuns(a[..n], old(a[..n]), f)
  {
    var j := 0;
    while j < m - 1
      invariant 0 <= j <= m - 1
      invariant MaxAt(a[..n], j, f) && Split(a[..n], m, f)
      invariant a[..n][m..] == old(a[..n][m..]) && a[n..] == old(a[n..])
      invariant SameKeyRuns(a[..n], old(a[..n]), f)
    {
      ghost var before := a[..n];
      if Key(a[j], f) > Key(a[j + 1], f) {
        a[j], a[j + 1] := a[j + 1], a[j];
        assert a[..n] == before[j := before[j + 1]][j + 1 := before[j]];
        SwapKeepsRuns(before, j, f);
      }
      PassStep(before, a[..n], j, m, f);
      j := j + 1;
    }
  }

  /** The bubble sort of the first `n` cells of `a` by field `f`: passes of
      adjacent comparisons that swap only on a strictly greater key. */
  method BubbleSort(a: array<Process>, n: nat, f: Field)
    requires n <= a.Length
    modifies a
    ensures a[..n] == StableSort(old(a[..n]), f)
    ensures a[n..] == old(a[n..])
  {
    var i := 0;
    while i < n - 1
      invariant 0 <= i <= n
      invariant SortedFrom(a[..n], n - i, f) && Split(a[..n], n - i, f)
      invariant a[n..] == old(a[n..])
      invariant SameKeyRuns(a[..n], old(a[..n]), f)
    {
      ghost var before := a[..n];
      BubblePass(a, n, n - i, f);
      PassExtends(before, a[..n], n - i, f);
      i := i + 1;
    }
    SortedIsStableSort(a[..n], old(a[..n]), f);
  }

  /** sort_processes_by_arrival */
  method SortProcessesByArrival(a: array<Process>, n: nat)
    requires n <= a.Length
    modifies a
    ensures a[..n] == StableSort(old(a[..n]), Arrival)
    ensures a[n..] == old(a[n..])
  {
    BubbleSort(a, n, Arrival);
  }

  /** sort_processes_by_burst_time */
  method SortProcessesByBurstTime(a: array<Process>, n: nat)
    requires n <= a.Length
    modifies a
    ensures a[..n] == StableSort(old(a[..n]), Burst)
    ensures a[n..] == old(a[n..])
  {
    BubbleSort(a, n, Burst);
  }
}
