/**
 * `filterSubPaths`: sort the decisions by path length, then splice out every
 * later entry whose path has an earlier kept entry's path as a string prefix.
 *
 * The sort is the engine's stable `Array.prototype.sort` with the comparator
 * `a.path.length - b.path.length`, lengths counted in UTF-16 code units; it is
 * modelled by its result, a stable insertion sort on sequences. The filter
 * keeps the source's nested loops.
 */
module SubPaths {
  import opened Paths

  // ---------------------------------------------------------------------------
  // Sorting by path length

  predicate SortedByLength(s: seq<Entry>)
  {
    forall i, j :: 0 <= i < j < |s| ==> Utf16Length(s[i].path) <= Utf16Length(s[j].path)
  }

  /** Insert `e` before the first entry that is at least as long. */
  function Insert(e: Entry, s: seq<Entry>): (r: seq<Entry>)
    ensures |r| == |s| + 1
    ensures forall x :: x in r <==> x == e || x in s
  {
    if s == [] || Utf16Length(e.path) <= Utf16Length(s[0].path) then [e] + s
    else [s[0]] + Insert(e, s[1..])
  }

  lemma {:induction false} InsertPermutes(e: Entry, s: seq<Entry>)
    ensures multiset(Insert(e, s)) == multiset(s) + multiset{e}
  {
    if s != [] && Utf16Length(e.path) > Utf16Length(s[0].path) {
      InsertPermutes(e, s[1..]);
      assert s == [s[0]] + s[1..];
    }
  }

  lemma {:induction false} InsertSorted(e: Entry, s: seq<Entry>)
    requires SortedByLength(s)
    ensures SortedByLength(Insert(e, s))
  {
    if s != [] && Utf16Length(e.path) > Utf16Length(s[0].path) {
      var t := Insert(e, s[1..]);
      InsertSorted(e, s[1..]);
      forall x | x in t ensures Utf16Length(s[0].path) <= Utf16Length(x.path) {
        if x != e {
          var j :| 0 <= j < |s[1..]| && s[1..][j] == x;
          assert s[j + 1] == x;
        }
      }
      var r := [s[0]] + t;
      assert Insert(e, s) == r;
      forall i, j | 0 <= i < j < |r| ensures Utf16Length(r[i].path) <= Utf16Length(r[j].path) {
        if i == 0 {
          assert r[j] in t;
        } else {
          assert r[i] == t[i - 1] && r[j] == t[j - 1];
        }
      }
    }
  }

  /** The stable sort of the decisions by ascending path length. */
  function SortByLength(s: seq<Entry>): (r: seq<Entry>)
    ensures multiset(r) == multiset(s)
    ensures SortedByLength(r)
  {
    if s == [] then []
    else
      var t := SortByLength(s[1..]);
      InsertSorted(s[0], t);
      InsertPermutes(s[0], t);
      assert s == [s[0]] + s[1..];
      Insert(s[0], t)
  }

  /** The entries of `s` whose path has length `n`, in order. */
  function WithLength(s: seq<Entry>, n: nat): seq<Entry>
  {
    if s == [] then []
    else (if Utf16Length(s[0].path) == n then [s[0]] else []) + WithLength(s[1..], n)
  }

  lemma {:induction false} InsertWithLength(e: Entry, s: seq<Entry>, n: nat)
    ensures WithLength(Insert(e, s), n) == (if Utf16Length(e.path) == n then [e] else []) + WithLength(s, n)
  {
    var here := if Utf16Length(e.path) == n then [e] else [];
    if s == [] || Utf16Length(e.path) <= Utf16Length(s[0].path) {
      assert Insert(e, s) == [e] + s;
      WithLengthCons(e, s, n);
    } else {
      var t := Insert(e, s[1..]);
      var first := if Utf16Length(s[0].path) == n then [s[0]] else [];
      assert Insert(e, s) == [s[0]] + t;
      WithLengthCons(s[0], t, n);
      InsertWithLength(e, s[1..], n);
      assert s == [s[0]] + s[1..];
      WithLengthCons(s[0], s[1..], n);
      if Utf16Length(e.path) == n {
        assert first == [];
      } else {
        assert here == [];
      }
    }
  }

  lemma WithLengthCons(x: Entry, s: seq<Entry>, n: nat)
    ensures WithLength([x] + s, n) == (if Utf16Length(x.path) == n then [x] else []) + WithLength(s, n)
  {
    assert ([x] + s)[1..] == s;
  }

  /** Stability: entries of equal path length keep their relative order. */
  lemma {:induction false} SortIsStable(s: seq<Entry>, n: nat)
    ensures WithLength(SortByLength(s), n) == WithLength(s, n)
  {
    if s != [] {
      SortIsStable(s[1..], n);
      InsertWithLength(s[0], SortByLength(s[1..]), n);
    }
  }

  // ---------------------------------------------------------------------------
  // The reference definition of the filter

  /** Some entry before position `k` has a path that is a string prefix of `s[k]`'s path. */
  predicate HasEarlierPrefix(s: seq<Entry>, k: int)
    requires 0 <= k < |s|
  {
    exists i :: 0 <= i < k && s[i].path <= s[k].path
  }

  /** The entries with no earlier prefix, in order. */
  function Keep(s: seq<Entry>): seq<Entry>
  {
    if s == [] then []
    else
      var n := |s| - 1;
      Keep(s[..n]) + (if HasEarlierPrefix(s, n) then [] else [s[n]])
  }

  /** The positions `Keep` keeps. */
  ghost function KeptIndices(s: seq<Entry>): seq<int>
  {
    if s == [] then []
    else
      var n := |s| - 1;
      KeptIndices(s[..n]) + (if HasEarlierPrefix(s, n) then [] else [n])
  }

  /** `r` is `s` read at the strictly increasing positions `idx`. */
  ghost predicate IndexesInto(idx: seq<int>, r: seq<Entry>, s: seq<Entry>)
  {
    && |idx| == |r| && |idx| <= |s|
    && (forall j :: 0 <= j < |idx| ==> 0 <= idx[j] < |s| && r[j] == s[idx[j]])
    && (forall a, b :: 0 <= a < b < |idx| ==> idx[a] < idx[b])
  }

  ghost predicate Subsequence(r: seq<Entry>, s: seq<Entry>)
  {
    exists idx :: IndexesInto(idx, r, s)
  }

  /** No entry's path is a string prefix of another entry's path; in particular no path repeats. */
  predicate NoNested(r: seq<Entry>)
  {
    forall i, j :: 0 <= i < |r| && 0 <= j < |r| && i != j ==> !(r[i].path <= r[j].path)
  }

  /** Every entry of `s` has the path of some entry of `r` as a prefix. */
  ghost predicate Covers(r: seq<Entry>, s: seq<Entry>)
  {
    forall e :: e in s ==> exists x :: x in r && x.path <= e.path
  }

  /** A single decision is kept as it is. */
  lemma SingleKept(e: Entry)
    ensures Keep(SortByLength([e])) == [e]
  {
    assert [e][1..] == [] && [e][..0] == [];
    assert SortByLength([e]) == [e];
    assert !HasEarlierPrefix([e], 0);
  }

  /** Two entries, the second strictly shorter, swap places. */
  lemma SortPair(a: Entry, b: Entry)
    requires Utf16Length(b.path) < Utf16Length(a.path)
    ensures SortByLength([a, b]) == [b, a]
  {
    assert [a, b][1..] == [b] && [b][1..] == [];
    assert SortByLength([b]) == [b];
    assert Insert(a, [b]) == [b] + Insert(a, []);
  }

  /** Of two entries, the second lying under the first is spliced out. */
  lemma KeepPair(b: Entry, a: Entry)
    requires b.path <= a.path
    ensures Keep([b, a]) == [b]
  {
    assert HasEarlierPrefix([b, a], 1) by {
      assert [b, a][0].path <= [b, a][1].path;
    }
    assert [b, a][..1] == [b] && [b][..0] == [];
    assert !HasEarlierPrefix([b], 0);
    assert Keep([b]) == Keep([]) + [b];
    assert Keep([b, a]) == Keep([b]) + [];
  }

  lemma EarlierPrefixOfPrefix(s: seq<Entry>, n: int, t: int)
    requires 0 <= t < n <= |s|
    ensures HasEarlierPrefix(s[..n], t) == HasEarlierPrefix(s, t)
  {
    if HasEarlierPrefix(s, t) {
      var i :| 0 <= i < t && s[i].path <= s[t].path;
      assert s[..n][i] == s[i];
    }
  }

  lemma {:induction false} KeepIndexed(s: seq<Entry>)
    ensures IndexesInto(KeptIndices(s), Keep(s), s)
    ensures forall t :: t in KeptIndices(s) <==> 0 <= t < |s| && !HasEarlierPrefix(s, t)
  {
    if s != [] {
      var n := |s| - 1;
      var s' := s[..n];
      KeepIndexed(s');
      forall t | 0 <= t < n ensures HasEarlierPrefix(s', t) == HasEarlierPrefix(s, t) {
        EarlierPrefixOfPrefix(s, n, t);
      }
      var idx := KeptIndices(s);
      var r := Keep(s);
      assert forall j :: 0 <= j < |KeptIndices(s')| ==> r[j] == Keep(s')[j] && idx[j] == KeptIndices(s')[j];
    }
  }

  /** Reading a sequence at exactly the positions without an earlier prefix yields `Keep`. */
  lemma {:induction false} IndexedFilterIsKeep(s: seq<Entry>, idx: seq<int>, r: seq<Entry>)
    requires IndexesInto(idx, r, s)
    requires forall t :: 0 <= t < |s| ==> (t in idx <==> !HasEarlierPrefix(s, t))
    ensures r == Keep(s)
    decreases |s|
  {
    if s != [] {
      var n := |s| - 1;
      if HasEarlierPrefix(s, n) {
        DropRemovedLast(s, s[..n], idx, r);
        IndexedFilterIsKeep(s[..n], idx, r);
      } else {
        var m := |idx| - 1;
        DropKeptLast(s, s[..n], idx, idx[..m], r, r[..m]);
        IndexedFilterIsKeep(s[..n], idx[..m], r[..m]);
        assert r == r[..m] + [s[n]];
      }
    }
  }

  /** The last position has an earlier prefix: it is not read, and the rest is read from the shorter input. */
  lemma DropRemovedLast(s: seq<Entry>, s': seq<Entry>, idx: seq<int>, r: seq<Entry>)
    requires s != [] && s' == s[..|s| - 1] && IndexesInto(idx, r, s)
    requires forall t :: 0 <= t < |s| ==> (t in idx <==> !HasEarlierPrefix(s, t))
    requires HasEarlierPrefix(s, |s| - 1)
    ensures IndexesInto(idx, r, s')
    ensures forall t :: 0 <= t < |s'| ==> (t in idx <==> !HasEarlierPrefix(s', t))
  {
    var n := |s| - 1;
    forall t | 0 <= t < n ensures HasEarlierPrefix(s', t) == HasEarlierPrefix(s, t) {
      EarlierPrefixOfPrefix(s, n, t);
    }
    assert forall j :: 0 <= j < |idx| ==> idx[j] != n;
    assert |idx| <= n by {
      if |idx| > 0 {
        Increasing(idx, 0, |idx| - 1);
        LastBound(idx, n);
      }
    }
  }

  /** Strictly increasing positions below `n` number at most `n`. */
  lemma {:induction false} LastBound(idx: seq<int>, n: int)
    requires forall a, b :: 0 <= a < b < |idx| ==> idx[a] < idx[b]
    requires 0 <= n && forall j :: 0 <= j < |idx| ==> 0 <= idx[j] < n
    ensures |idx| <= n
    decreases |idx|
  {
    if |idx| > 0 {
      var idx' := idx[..|idx| - 1];
      forall j | 0 <= j < |idx'| ensures 0 <= idx'[j] < idx[|idx| - 1] {
        Increasing(idx, j, |idx| - 1);
      }
      LastBound(idx', idx[|idx| - 1]);
    }
  }

  /** The last position has no earlier prefix: it is read last, and the rest is read from the shorter input. */
  lemma DropKeptLast(s: seq<Entry>, s': seq<Entry>, idx: seq<int>, idx': seq<int>, r: seq<Entry>, r': seq<Entry>)
    requires s != [] && s' == s[..|s| - 1] && IndexesInto(idx, r, s)
    requires forall t :: 0 <= t < |s| ==> (t in idx <==> !HasEarlierPrefix(s, t))
    requires !HasEarlierPrefix(s, |s| - 1)
    requires |idx| > 0 ==> idx' == idx[..|idx| - 1] && r' == r[..|r| - 1]
    ensures |idx| > 0 && idx[|idx| - 1] == |s| - 1 && r[|r| - 1] == s[|s| - 1]
    ensures IndexesInto(idx', r', s')
    ensures forall t :: 0 <= t < |s'| ==> (t in idx' <==> !HasEarlierPrefix(s', t))
  {
    var n := |s| - 1;
    forall t | 0 <= t < n ensures HasEarlierPrefix(s', t) == HasEarlierPrefix(s, t) {
      EarlierPrefixOfPrefix(s, n, t);
    }
    var m :| 0 <= m < |idx| && idx[m] == n;
    Increasing(idx, m, |idx| - 1);
    assert m == |idx| - 1;
    forall t | 0 <= t < n ensures t in idx' <==> t in idx {
      if t in idx {
        var a :| 0 <= a < |idx| && idx[a] == t;
        assert a != m;
        assert idx'[a] == t;
      }
    }
  }

  lemma KeepIsSubsequence(s: seq<Entry>)
    ensures Subsequence(Keep(s), s)
  {
    KeepIndexed(s);
  }

  /** Every kept entry comes from the input. */
  lemma KeepSubset(s: seq<Entry>)
    ensures forall e :: e in Keep(s) ==> e in s
  {
    KeepIndexed(s);
    var idx := KeptIndices(s);
    forall e | e in Keep(s) ensures e in s {
      var j :| 0 <= j < |Keep(s)| && Keep(s)[j] == e;
      assert s[idx[j]] == e;
    }
  }

  /** On a length-sorted input, no kept path is a prefix of another kept path. */
  lemma KeepNoNested(s: seq<Entry>)
    requires SortedByLength(s)
    ensures NoNested(Keep(s))
  {
    KeepIndexed(s);
    var idx := KeptIndices(s);
    var r := Keep(s);
    forall i, j | 0 <= i < |r| && 0 <= j < |r| && i != j ensures !(r[i].path <= r[j].path) {
      if i < j {
        assert !HasEarlierPrefix(s, idx[j]);
        assert idx[i] < idx[j];
      } else {
        assert idx[j] < idx[i];
        assert !HasEarlierPrefix(s, idx[i]);
        assert !(s[idx[j]].path <= s[idx[i]].path);
        assert Utf16Length(s[idx[j]].path) <= Utf16Length(s[idx[i]].path);
        if s[idx[i]].path <= s[idx[j]].path {
          Utf16Prefix(s[idx[i]].path, s[idx[j]].path);
        }
      }
    }
  }

  lemma {:induction false} CoveredAt(s: seq<Entry>, t: int)
    requires 0 <= t < |s|
    ensures exists x :: x in Keep(s) && x.path <= s[t].path
    decreases t
  {
    KeepIndexed(s);
    if HasEarlierPrefix(s, t) {
      var u :| 0 <= u < t && s[u].path <= s[t].path;
      CoveredAt(s, u);
      var x :| x in Keep(s) && x.path <= s[u].path;
      assert x.path <= s[t].path;
    } else {
      var idx := KeptIndices(s);
      var j :| 0 <= j < |idx| && idx[j] == t;
      assert Keep(s)[j] == s[t];
    }
  }

  /** Every input entry has the path of a kept entry as a prefix. */
  lemma KeepCovers(s: seq<Entry>)
    ensures Covers(Keep(s), s)
  {
    forall e | e in s ensures exists x :: x in Keep(s) && x.path <= e.path {
      var t :| 0 <= t < |s| && s[t] == e;
      CoveredAt(s, t);
    }
  }

  /** Sorting keeps the same entries. */
  lemma SortSameEntries(paths: seq<Entry>)
    ensures forall e :: e in SortByLength(paths) <==> e in paths
  {
    var s := SortByLength(paths);
    forall e ensures e in s <==> e in paths {
      assert e in s <==> e in multiset(s);
      assert e in paths <==> e in multiset(paths);
    }
  }

  /** The reference filter on the sorted input has the properties the filter promises. */
  lemma FilterProperties(paths: seq<Entry>)
    ensures var r := Keep(SortByLength(paths));
      && Subsequence(r, SortByLength(paths))
      && NoNested(r)
      && Covers(r, paths)
      && (forall e :: e in r ==> e in paths)
  {
    var s := SortByLength(paths);
    SortSameEntries(paths);
    KeepIsSubsequence(s);
    KeepNoNested(s);
    KeepCovers(s);
    KeepSubset(s);
  }

  /** A kept entry is an entry of the input. */
  lemma KeptIsInput(s: seq<Entry>, x: Entry)
    requires x in Keep(s)
    ensures x in s
  {
    KeepSubset(s);
  }

  /** An entry of the (sorted) input is covered by a kept entry. */
  lemma InputIsCovered(s: seq<Entry>, e: Entry) returns (x: Entry)
    requires e in s
    ensures x in Keep(s) && x.path <= e.path
  {
    var t :| 0 <= t < |s| && s[t] == e;
    CoveredAt(s, t);
    x :| x in Keep(s) && x.path <= s[t].path;
  }

  lemma InSorted(paths: seq<Entry>, e: Entry)
    ensures e in SortByLength(paths) <==> e in paths
  {
    SortSameEntries(paths);
  }

  /**
   * What the filter keeps, in terms of its input alone: kept entries are
   * input entries with no strictly shorter prefix among the inputs, and every
   * such input path is kept (once).
   */
  lemma KeptAreMinimal(paths: seq<Entry>)
    ensures var r := Keep(SortByLength(paths));
      forall e :: e in r ==> e in paths && forall p :: p in paths && p.path <= e.path ==> p.path == e.path
    ensures var r := Keep(SortByLength(paths));
      forall e :: e in paths && (forall p :: p in paths && p.path <= e.path ==> p.path == e.path) ==>
        exists x :: x in r && x.path == e.path
  {
    KeptHaveNoShorterPrefix(paths);
    MinimalAreKept(paths);
  }

  lemma KeptHaveNoShorterPrefix(paths: seq<Entry>)
    ensures var r := Keep(SortByLength(paths));
      forall e :: e in r ==> e in paths && forall p :: p in paths && p.path <= e.path ==> p.path == e.path
  {
    var s := SortByLength(paths);
    var r := Keep(s);
    forall e | e in r ensures e in paths {
      KeptIsInput(s, e);
      InSorted(paths, e);
    }
    KeepNoNested(s);
    forall e, p | e in r && p in paths && p.path <= e.path ensures p.path == e.path {
      InSorted(paths, p);
      var x := InputIsCovered(s, p);
      var i :| 0 <= i < |r| && r[i] == x;
      var j :| 0 <= j < |r| && r[j] == e;
      PrefixTransitive(x.path, p.path, e.path);
      assert i == j;
    }
  }

  lemma MinimalAreKept(paths: seq<Entry>)
    ensures var r := Keep(SortByLength(paths));
      forall e :: e in paths && (forall p :: p in paths && p.path <= e.path ==> p.path == e.path) ==>
        exists x :: x in r && x.path == e.path
  {
    var s := SortByLength(paths);
    var r := Keep(s);
    forall e | e in paths && (forall p :: p in paths && p.path <= e.path ==> p.path == e.path)
      ensures exists x :: x in r && x.path == e.path
    {
      InSorted(paths, e);
      var x := InputIsCovered(s, e);
      KeptIsInput(s, x);
      InSorted(paths, x);
    }
  }

  // ---------------------------------------------------------------------------
  // The nested loops

  /** Positions 0 .. n - 1. */
  ghost function Positions(n: nat): (r: seq<int>)
    ensures |r| == n && forall j :: 0 <= j < n ==> r[j] == j
  {
    if n == 0 then [] else Positions(n - 1) + [n - 1]
  }

  /** Position `t` of `s` has the path of one of the first `n` survivors as a prefix. */
  ghost predicate RemovedBy(s: seq<Entry>, idx: seq<int>, n: int, t: int)
    requires 0 <= t < |s|
    requires forall j :: 0 <= j < |idx| ==> 0 <= idx[j] < |s|
  {
    exists j :: 0 <= j < n && j < |idx| && idx[j] < t && s[idx[j]].path <= s[t].path
  }

  /** The loop state at `sorted[i]` compared with `sorted[k]`. */
  ghost predicate Scanning(s: seq<Entry>, idx: seq<int>, sorted: seq<Entry>, i: int, k: int)
  {
    && 0 <= i < k <= |sorted|
    && IndexesInto(idx, sorted, s)
    && (forall j :: 0 <= j <= i ==> !HasEarlierPrefix(s, idx[j]))
    && (forall t :: 0 <= t < |s| && t !in idx ==> RemovedBy(s, idx, i + 1, t))
    && (forall l, j :: 0 <= l < i && l < j < |sorted| ==> !(sorted[l].path <= sorted[j].path))
    && (forall j :: i < j < k ==> !(sorted[i].path <= sorted[j].path))
  }

  /** The loop state before `sorted[i]` is compared with the later entries. */
  ghost predicate Settled(s: seq<Entry>, idx: seq<int>, sorted: seq<Entry>, i: int)
  {
    && 0 <= i <= |sorted|
    && IndexesInto(idx, sorted, s)
    && (forall j :: 0 <= j < i ==> !HasEarlierPrefix(s, idx[j]))
    && (forall t :: 0 <= t < |s| && t !in idx ==> RemovedBy(s, idx, i, t))
    && (forall l, j :: 0 <= l < i && l < j < |sorted| ==> !(sorted[l].path <= sorted[j].path))
  }

  lemma Increasing(idx: seq<int>, a: int, b: int)
    requires forall a, b :: 0 <= a < b < |idx| ==> idx[a] < idx[b]
    requires 0 <= a < |idx| && 0 <= b < |idx|
    ensures a < b <==> idx[a] < idx[b]
  {
    if b < a {
      assert idx[b] < idx[a];
    }
  }

  /** Before the loops every position survives. */
  lemma StartFilter(s: seq<Entry>)
    ensures Settled(s, Positions(|s|), s, 0)
  {
    var idx := Positions(|s|);
    forall t | 0 <= t < |s| ensures t in idx {
      assert idx[t] == t;
    }
  }

  lemma PrefixTransitive(a: string, b: string, c: string)
    ensures a <= b && b <= c ==> a <= c
  {
  }

  /** The next survivor has no earlier prefix in the sorted input. */
  lemma StartScan(s: seq<Entry>, idx: seq<int>, sorted: seq<Entry>, i: int)
    requires Settled(s, idx, sorted, i) && i < |sorted|
    ensures Scanning(s, idx, sorted, i, i + 1)
  {
    forall u | 0 <= u < idx[i] ensures !(s[u].path <= s[idx[i]].path) {
      if u in idx {
        var j :| 0 <= j < |idx| && idx[j] == u;
        Increasing(idx, j, i);
        assert j < i;
        assert sorted[j] == s[u] && sorted[i] == s[idx[i]];
      } else {
        assert RemovedBy(s, idx, i, u);
        var j :| 0 <= j < i && j < |idx| && idx[j] < u && s[idx[j]].path <= s[u].path;
        PrefixTransitive(s[idx[j]].path, s[u].path, s[idx[i]].path);
        assert sorted[j] == s[idx[j]] && sorted[i] == s[idx[i]];
      }
    }
    forall t | 0 <= t < |s| && t !in idx ensures RemovedBy(s, idx, i + 1, t) {
      assert RemovedBy(s, idx, i, t);
      var j :| 0 <= j < i && j < |idx| && idx[j] < t && s[idx[j]].path <= s[t].path;
    }
  }

  /** Removing position `k` shifts the later elements down by one. */
  lemma RemoveAt<T>(a: seq<T>, k: int)
    requires 0 <= k < |a|
    ensures |a[..k] + a[k + 1..]| == |a| - 1
    ensures forall j :: 0 <= j < |a| - 1 ==> (a[..k] + a[k + 1..])[j] == if j < k then a[j] else a[j + 1]
  {
  }

  /** Splicing out `sorted[k]`, which has `sorted[i]` as a prefix. */
  lemma Splice(s: seq<Entry>, idx: seq<int>, sorted: seq<Entry>, i: int, k: int)
    requires Scanning(s, idx, sorted, i, k) && k < |sorted|
    requires sorted[i].path <= sorted[k].path
    ensures Scanning(s, idx[..k] + idx[k + 1..], sorted[..k] + sorted[k + 1..], i, k)
  {
    var idx' := idx[..k] + idx[k + 1..];
    var sorted' := sorted[..k] + sorted[k + 1..];
    RemoveAt(idx, k);
    RemoveAt(sorted, k);
    SpliceIndexes(s, idx, idx', sorted, sorted', k);
    SpliceRemoved(s, idx, idx', sorted, i, k);
    SplicePairs(sorted, sorted', i, k);
    assert forall j :: 0 <= j <= i ==> idx'[j] == idx[j];
  }

  lemma SpliceIndexes(s: seq<Entry>, idx: seq<int>, idx': seq<int>, sorted: seq<Entry>, sorted': seq<Entry>, k: int)
    requires IndexesInto(idx, sorted, s) && 0 <= k < |sorted|
    requires idx' == idx[..k] + idx[k + 1..] && sorted' == sorted[..k] + sorted[k + 1..]
    ensures IndexesInto(idx', sorted', s)
  {
    RemoveAt(idx, k);
    RemoveAt(sorted, k);
    forall a, b | 0 <= a < b < |idx'| ensures idx'[a] < idx'[b] {
      assert idx'[a] == idx[if a < k then a else a + 1];
      assert idx'[b] == idx[if b < k then b else b + 1];
    }
  }

  lemma SplicePairs(sorted: seq<Entry>, sorted': seq<Entry>, i: int, k: int)
    requires 0 <= i < k < |sorted| && sorted' == sorted[..k] + sorted[k + 1..]
    requires forall l, j :: 0 <= l < i && l < j < |sorted| ==> !(sorted[l].path <= sorted[j].path)
    requires forall j :: i < j < k ==> !(sorted[i].path <= sorted[j].path)
    ensures forall l, j :: 0 <= l < i && l < j < |sorted'| ==> !(sorted'[l].path <= sorted'[j].path)
    ensures forall j :: i < j < k ==> !(sorted'[i].path <= sorted'[j].path)
  {
    RemoveAt(sorted, k);
    forall l, j | 0 <= l < i && l < j < |sorted'| ensures !(sorted'[l].path <= sorted'[j].path) {
      assert sorted'[l] == sorted[l];
      assert sorted'[j] == sorted[if j < k then j else j + 1];
    }
  }

  lemma SpliceRemoved(s: seq<Entry>, idx: seq<int>, idx': seq<int>, sorted: seq<Entry>, i: int, k: int)
    requires Scanning(s, idx, sorted, i, k) && k < |sorted|
    requires sorted[i].path <= sorted[k].path
    requires idx' == idx[..k] + idx[k + 1..]
    ensures forall t :: 0 <= t < |s| && t !in idx' ==> RemovedBy(s, idx', i + 1, t)
  {
    RemoveAt(idx, k);
    forall a | 0 <= a < |idx| && a != k ensures idx[a] in idx' {
      assert idx[a] == idx'[if a < k then a else a - 1];
    }
    assert idx[i] < idx[k] && s[idx[i]].path <= s[idx[k]].path;
    RemovedBySpliced(s, idx, idx', i, k);
    forall t | 0 <= t < |s| && t !in idx' ensures RemovedBy(s, idx', i + 1, t) {
      if t != idx[k] {
        assert t !in idx;
        RemovedByKept(s, idx, idx', i, k, t);
      }
    }
  }

  /** The spliced-out position is removed by `sorted[i]`, which stays. */
  lemma RemovedBySpliced(s: seq<Entry>, idx: seq<int>, idx': seq<int>, i: int, k: int)
    requires 0 <= i < k < |idx| && forall j :: 0 <= j < |idx| ==> 0 <= idx[j] < |s|
    requires idx' == idx[..k] + idx[k + 1..]
    requires idx[i] < idx[k] && s[idx[i]].path <= s[idx[k]].path
    ensures forall j :: 0 <= j < |idx'| ==> 0 <= idx'[j] < |s|
    ensures RemovedBy(s, idx', i + 1, idx[k])
  {
    RemoveAt(idx, k);
    assert idx'[i] == idx[i];
  }

  /** A position removed before the splice is still removed by the same survivor. */
  lemma RemovedByKept(s: seq<Entry>, idx: seq<int>, idx': seq<int>, i: int, k: int, t: int)
    requires 0 <= i < k < |idx| && 0 <= t < |s| && forall j :: 0 <= j < |idx| ==> 0 <= idx[j] < |s|
    requires idx' == idx[..k] + idx[k + 1..]
    requires RemovedBy(s, idx, i + 1, t)
    ensures forall j :: 0 <= j < |idx'| ==> 0 <= idx'[j] < |s|
    ensures RemovedBy(s, idx', i + 1, t)
  {
    RemoveAt(idx, k);
    var j :| 0 <= j < i + 1 && j < |idx| && idx[j] < t && s[idx[j]].path <= s[t].path;
    assert idx'[j] == idx[j];
  }

  /** `sorted[k]` stays: it does not have `sorted[i]` as a prefix. */
  lemma Pass(s: seq<Entry>, idx: seq<int>, sorted: seq<Entry>, i: int, k: int)
    requires Scanning(s, idx, sorted, i, k) && k < |sorted|
    requires !(sorted[i].path <= sorted[k].path)
    ensures Scanning(s, idx, sorted, i, k + 1)
  {
  }

  /** After comparing `sorted[i]` with every later entry, position `i` is settled. */
  lemma EndScan(s: seq<Entry>, idx: seq<int>, sorted: seq<Entry>, i: int)
    requires Scanning(s, idx, sorted, i, |sorted|)
    ensures Settled(s, idx, sorted, i + 1)
  {
  }

  /** With every position settled, the survivors are the reference filter's result. */
  lemma Finish(s: seq<Entry>, idx: seq<int>, sorted: seq<Entry>)
    requires Settled(s, idx, sorted, |sorted|)
    ensures sorted == Keep(s)
  {
    forall t | 0 <= t < |s| ensures t in idx <==> !HasEarlierPrefix(s, t) {
      if t in idx {
        var j :| 0 <= j < |idx| && idx[j] == t;
      } else {
        assert RemovedBy(s, idx, |sorted|, t);
      }
    }
    IndexedFilterIsKeep(s, idx, sorted);
  }

  /**
   * `filterSubPaths(paths)`: the survivors are the reference filter applied to
   * the length-sorted input, so they form a subsequence of it, none is a
   * prefix of another, every input has a survivor as a prefix, and every
   * survivor is an input.
   */
  method FilterSubPaths(paths: seq<Entry>) returns (r: seq<Entry>)
    ensures r == Keep(SortByLength(paths))
    ensures Subsequence(r, SortByLength(paths))
    ensures NoNested(r)
    ensures Covers(r, paths)
    ensures forall e :: e in r ==> e in paths
  {
    var sorted := SortByLength(paths);
    ghost var s := sorted;
    ghost var idx := Positions(|s|);
    StartFilter(s);
    var i := 0;
    while i < |sorted|
      invariant Settled(s, idx, sorted, i)
      decreases |sorted| - i
    {
      StartScan(s, idx, sorted, i);
      var k := i + 1;
      ghost var before := |sorted|;
      while k < |sorted|
        invariant Scanning(s, idx, sorted, i, k)
        invariant |sorted| <= before
        decreases |sorted| - k
      {
        if sorted[i].path <= sorted[k].path {
          Splice(s, idx, sorted, i, k);
          sorted := sorted[..k] + sorted[k + 1..];
          idx := idx[..k] + idx[k + 1..];
          k := k - 1;
        } else {
          Pass(s, idx, sorted, i, k);
        }
        k := k + 1;
      }
      EndScan(s, idx, sorted, i);
      i := i + 1;
    }
    Finish(s, idx, sorted);
    r := sorted;
    FilterProperties(paths);
  }
}
