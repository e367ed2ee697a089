/**
 * Sequence operations the Python code gets from list comprehensions and
 * `sorted`: filtering, subsequences, lexicographic order on strings with the
 * sort built on it, and a descending sort by a numeric key (SQL `ORDER BY … DESC`).
 */
module Seqs {

  // ---------------------------------------------------------------- filtering

  /** `[x for x in s if p(x)]` */
  function Filter<T(==,!new)>(s: seq<T>, p: T -> bool): (r: seq<T>)
    ensures |r| <= |s|
    ensures forall x :: x in r <==> x in s && p(x)
    ensures forall i :: 0 <= i < |r| ==> p(r[i])
  {
    if s == [] then []
    else if p(s[0]) then [s[0]] + Filter(s[1..], p)
    else Filter(s[1..], p)
  }

  lemma {:induction false} FilterConcat<T(!new)>(a: seq<T>, b: seq<T>, p: T -> bool)
    ensures Filter(a + b, p) == Filter(a, p) + Filter(b, p)
    decreases |a|
  {
    if a == [] {
      assert a + b == b;
    } else {
      var ab := a + b;
      assert ab[0] == a[0] && ab[1..] == a[1..] + b;
      FilterConcat(a[1..], b, p);
      if p(a[0]) {
        assert Filter(ab, p) == [a[0]] + (Filter(a[1..], p) + Filter(b, p));
      }
    }
  }

  lemma EmptyConcat<T>(s: seq<T>)
    ensures [] + s == s
  {
  }

  /** The prefix one longer is the prefix and the next element. */
  lemma PrefixSnoc<T>(s: seq<T>, n: int)
    requires 0 <= n < |s|
    ensures s[..n + 1] == s[..n] + [s[n]]
  {
  }

  /** The prefix one longer, seen from its own end: what a loop written with `s[..n]` steps over. */
  lemma PrefixPrefix<T>(s: seq<T>, n: int)
    requires 0 <= n < |s|
    ensures s[..n + 1][..n] == s[..n] && s[..n + 1][n] == s[n] && |s[..n + 1]| == n + 1
  {
  }

  /** The loop step of a filtering loop over the prefixes of `s`. */
  lemma FilterPrefix<T(!new)>(s: seq<T>, n: int, p: T -> bool)
    requires 0 <= n < |s|
    ensures Filter(s[..n + 1], p) == if p(s[n]) then Filter(s[..n], p) + [s[n]] else Filter(s[..n], p)
  {
    PrefixSnoc(s, n);
    FilterSnoc(s[..n], s[n], p);
    assert Filter(s[..n], p) + [] == Filter(s[..n], p);
  }

  /** The filter of a non-empty sequence, seen from its last element. */
  lemma FilterLast<T(!new)>(s: seq<T>, p: T -> bool)
    requires s != []
    ensures Filter(s, p) == if p(s[|s| - 1]) then Filter(s[..|s| - 1], p) + [s[|s| - 1]] else Filter(s[..|s| - 1], p)
  {
    FilterPrefix(s, |s| - 1, p);
    assert s[..|s|] == s;
  }

  /** One more element at the end: the loop step of a filtering loop. */
  lemma FilterSnoc<T(!new)>(s: seq<T>, x: T, p: T -> bool)
    ensures Filter(s + [x], p) == Filter(s, p) + (if p(x) then [x] else [])
  {
    FilterConcat(s, [x], p);
    assert Filter([x], p) == (if p(x) then [x] else []) by {
      assert [x][1..] == [];
    }
  }

  /** The loop step of a loop that maps the elements it keeps. */
  lemma MapFilterSnoc<T(!new), U>(s: seq<T>, x: T, p: T -> bool, f: T -> U)
    ensures Map(Filter(s + [x], p), f) == Map(Filter(s, p), f) + (if p(x) then [f(x)] else [])
  {
    FilterSnoc(s, x, p);
    if p(x) {
      MapConcat(Filter(s, p), [x], f);
      MapSingle(x, f);
    } else {
      assert Filter(s, p) + [] == Filter(s, p);
    }
  }

  /** The same step, on the prefixes of one sequence. */
  lemma MapFilterPrefix<T(!new), U>(s: seq<T>, m: int, p: T -> bool, f: T -> U)
    requires 0 <= m < |s|
    ensures Map(Filter(s[..m + 1], p), f) == Map(Filter(s[..m], p), f) + (if p(s[m]) then [f(s[m])] else [])
  {
    assert s[..m + 1] == s[..m] + [s[m]];
    MapFilterSnoc(s[..m], s[m], p, f);
  }

  lemma FilterNone<T(!new)>(s: seq<T>, p: T -> bool)
    requires forall x :: x in s ==> !p(x)
    ensures Filter(s, p) == []
  {
    var r := Filter(s, p);
    assert forall i :: 0 <= i < |r| ==> r[i] in s;
  }

  /** The kept and the dropped elements together are the input, as a multiset. */
  lemma {:induction false} FilterPartition<T(!new)>(s: seq<T>, p: T -> bool, q: T -> bool)
    requires forall x :: q(x) == !p(x)
    ensures multiset(Filter(s, p)) + multiset(Filter(s, q)) == multiset(s)
    decreases |s|
  {
    if s != [] {
      var x, rest := s[0], s[1..];
      FilterPartition(rest, p, q);
      assert s == [x] + rest;
      assert multiset(s) == multiset{x} + multiset(rest);
      if p(x) {
        assert Filter(s, p) == [x] + Filter(rest, p) && Filter(s, q) == Filter(rest, q);
        assert multiset(Filter(s, p)) == multiset{x} + multiset(Filter(rest, p));
      } else {
        assert Filter(s, q) == [x] + Filter(rest, q) && Filter(s, p) == Filter(rest, p);
        assert multiset(Filter(s, q)) == multiset{x} + multiset(Filter(rest, q));
      }
    }
  }

  /** Mapping the two halves of a partition gives back, as a multiset, the mapped whole. */
  lemma {:induction false} MapFilterPartition<T(!new), U>(s: seq<T>, p: T -> bool, q: T -> bool, f: T -> U)
    requires forall x :: q(x) == !p(x)
    ensures multiset(Map(Filter(s, p), f)) + multiset(Map(Filter(s, q), f)) == multiset(Map(s, f))
    decreases |s|
  {
    if s != [] {
      var init, x := s[..|s| - 1], s[|s| - 1];
      MapFilterPartition(init, p, q, f);
      FilterLast(s, p);
      FilterLast(s, q);
      var kp, kq := Filter(init, p), Filter(init, q);
      MapSnoc(kp, x, f);
      MapSnoc(kq, x, f);
      PartitionStep(Map(kp, f), Map(kq, f), Map(init, f), f(x), p(x));
    }
  }

  /** One more element, sent to one side of a partition. */
  lemma PartitionStep<T>(a: seq<T>, b: seq<T>, c: seq<T>, y: T, toA: bool)
    requires multiset(a) + multiset(b) == multiset(c)
    ensures multiset(if toA then a + [y] else a) + multiset(if toA then b else b + [y]) == multiset(c + [y])
  {
    assert multiset(c + [y]) == multiset(c) + multiset{y};
    if toA {
      assert multiset(a + [y]) == multiset(a) + multiset{y};
    } else {
      assert multiset(b + [y]) == multiset(b) + multiset{y};
    }
  }

  /** Where the elements of `a + b + c` come from. */
  lemma Concat3Index<T>(a: seq<T>, b: seq<T>, c: seq<T>)
    ensures |a + b + c| == |a| + |b| + |c|
    ensures forall i :: 0 <= i < |a| ==> (a + b + c)[i] == a[i]
    ensures forall i :: |a| <= i < |a| + |b| ==> (a + b + c)[i] == b[i - |a|]
    ensures forall i :: |a| + |b| <= i < |a| + |b| + |c| ==> (a + b + c)[i] == c[i - |a| - |b|]
  {
  }

  /** The elements of `a + b + c` after its first `k == |a| + |b|`. */
  lemma LastPart<T>(a: seq<T>, b: seq<T>, c: seq<T>, k: int)
    requires k == |a| + |b|
    ensures |a + b + c| == k + |c|
    ensures forall i :: k <= i < k + |c| ==> (a + b + c)[i] == c[i - k]
  {
  }

  /** `[f(x) for x in s]`, built from the end like a loop that appends. */
  function Map<T, U>(s: seq<T>, f: T -> U): (r: seq<U>)
    ensures |r| == |s|
    decreases |s|
  {
    if s == [] then [] else Map(s[..|s| - 1], f) + [f(s[|s| - 1])]
  }

  lemma {:induction false} MapEach<T, U>(s: seq<T>, f: T -> U)
    ensures forall i :: 0 <= i < |s| ==> Map(s, f)[i] == f(s[i])
    decreases |s|
  {
    if s != [] {
      MapEach(s[..|s| - 1], f);
    }
  }

  lemma MapSnoc<T, U>(s: seq<T>, x: T, f: T -> U)
    ensures Map(s + [x], f) == Map(s, f) + [f(x)]
  {
    assert (s + [x])[..|s|] == s;
  }

  lemma MapSingle<T, U>(x: T, f: T -> U)
    ensures Map([x], f) == [f(x)]
  {
    assert [x][..0] == [];
  }

  lemma {:induction false} MapConcat<T, U>(a: seq<T>, b: seq<T>, f: T -> U)
    ensures Map(a + b, f) == Map(a, f) + Map(b, f)
    decreases |b|
  {
    if b == [] {
      assert a + b == a;
    } else {
      MapConcat(a, b[..|b| - 1], f);
      assert (a + b)[..|a + b| - 1] == a + b[..|b| - 1];
    }
  }

  // ---------------------------------------------------------------- subsequences

  /** `r` is `s` with some elements left out, in the same order. */
  predicate IsSubseq<T(==)>(r: seq<T>, s: seq<T>)
    decreases |s|
  {
    if r == [] then true
    else if s == [] then false
    else (r[|r| - 1] == s[|s| - 1] && IsSubseq(r[..|r| - 1], s[..|s| - 1]))
         || IsSubseq(r, s[..|s| - 1])
  }

  lemma SubseqExtend<T>(r: seq<T>, s: seq<T>, x: T)
    requires IsSubseq(r, s)
    ensures IsSubseq(r + [x], s + [x]) && IsSubseq(r, s + [x])
  {
    assert (r + [x])[..|r|] == r && (s + [x])[..|s|] == s;
  }

  /** The loop step of a loop that may keep `s[n]`. */
  lemma SubseqPrefixStep<T>(r: seq<T>, s: seq<T>, n: int)
    requires 0 <= n < |s| && IsSubseq(r, s[..n])
    ensures IsSubseq(r + [s[n]], s[..n + 1]) && IsSubseq(r, s[..n + 1])
  {
    PrefixSnoc(s, n);
    SubseqExtend(r, s[..n], s[n]);
  }

  lemma {:induction false} SubseqMembers<T>(r: seq<T>, s: seq<T>)
    requires IsSubseq(r, s)
    ensures forall x :: x in r ==> x in s
    decreases |s|
  {
    if r != [] {
      if r[|r| - 1] == s[|s| - 1] && IsSubseq(r[..|r| - 1], s[..|s| - 1]) {
        SubseqMembers(r[..|r| - 1], s[..|s| - 1]);
        assert r == r[..|r| - 1] + [r[|r| - 1]];
        assert s == s[..|s| - 1] + [s[|s| - 1]];
      } else {
        SubseqMembers(r, s[..|s| - 1]);
        assert s == s[..|s| - 1] + [s[|s| - 1]];
      }
    }
  }

  /** Mapping keeps the subsequence relation. */
  lemma {:induction false} SubseqMap<T, U>(r: seq<T>, s: seq<T>, f: T -> U)
    requires IsSubseq(r, s)
    ensures IsSubseq(Map(r, f), Map(s, f))
    decreases |s|
  {
    if r != [] {
      var rs, ss := Map(r, f), Map(s, f);
      if r[|r| - 1] == s[|s| - 1] && IsSubseq(r[..|r| - 1], s[..|s| - 1]) {
        SubseqMap(r[..|r| - 1], s[..|s| - 1], f);
        assert rs[..|rs| - 1] == Map(r[..|r| - 1], f);
        assert ss[..|ss| - 1] == Map(s[..|s| - 1], f);
      } else {
        SubseqMap(r, s[..|s| - 1], f);
        assert ss[..|ss| - 1] == Map(s[..|s| - 1], f);
      }
    }
  }

  /** A filtered sequence is a subsequence of its input. */
  lemma {:induction false} FilterIsSubseq<T(!new)>(s: seq<T>, p: T -> bool)
    ensures IsSubseq(Filter(s, p), s)
    decreases |s|
  {
    if s != [] {
      var init, x := s[..|s| - 1], s[|s| - 1];
      FilterIsSubseq(init, p);
      assert s == init + [x];
      FilterSnoc(init, x, p);
      SubseqExtend(Filter(init, p), init, x);
      if p(x) {
        assert Filter(s, p) == Filter(init, p) + [x];
      } else {
        assert Filter(s, p) == Filter(init, p);
      }
    }
  }

  // ---------------------------------------------------------------- distinct elements

  predicate Distinct<T(==)>(s: seq<T>) {
    forall i, j :: 0 <= i < j < |s| ==> s[i] != s[j]
  }

  lemma {:induction false} DistinctMultiplicity<T>(s: seq<T>)
    requires Distinct(s)
    ensures forall x :: multiset(s)[x] <= 1
    decreases |s|
  {
    if s != [] {
      assert Distinct(s[1..]);
      DistinctMultiplicity(s[1..]);
      assert s == [s[0]] + s[1..];
      assert s[0] !in s[1..];
    }
  }

  /** A rearrangement of a duplicate-free sequence is duplicate-free. */
  lemma DistinctPermutation<T>(s: seq<T>, r: seq<T>)
    requires Distinct(s) && multiset(s) == multiset(r)
    ensures Distinct(r)
  {
    DistinctMultiplicity(s);
    forall i, j | 0 <= i < j < |r| ensures r[i] != r[j] {
      var x := r[i];
      assert r == r[..j] + r[j..];
      assert x in r[..j];
      assert multiset(r)[x] == multiset(r[..j])[x] + multiset(r[j..])[x];
      assert multiset(r[j..])[x] == 0;
      assert r[j] in r[j..];
    }
  }

  // ---------------------------------------------------------------- string order

  /** Python's `<=` on `str`: lexicographic by code point. */
  predicate StrLe(a: string, b: string)
    decreases |a|
  {
    if a == [] then true
    else if b == [] then false
    else if a[0] != b[0] then a[0] < b[0]
    else StrLe(a[1..], b[1..])
  }

  lemma {:induction false} StrLeTotal(a: string, b: string)
    ensures StrLe(a, b) || StrLe(b, a)
    decreases |a|
  {
    if a != [] && b != [] && a[0] == b[0] {
      StrLeTotal(a[1..], b[1..]);
    }
  }

  lemma {:induction false} StrLeAntisymmetric(a: string, b: string)
    requires StrLe(a, b) && StrLe(b, a)
    ensures a == b
    decreases |a|
  {
    if a != [] {
      StrLeAntisymmetric(a[1..], b[1..]);
      assert a == [a[0]] + a[1..] && b == [b[0]] + b[1..];
    }
  }

  lemma {:induction false} StrLeTransitive(a: string, b: string, c: string)
    requires StrLe(a, b) && StrLe(b, c)
    ensures StrLe(a, c)
    decreases |a|
  {
    if a != [] && b != [] && c != [] && a[0] == b[0] && b[0] == c[0] {
      StrLeTransitive(a[1..], b[1..], c[1..]);
    }
  }

  predicate SortedStr(s: seq<string>) {
    forall i, j :: 0 <= i < j < |s| ==> StrLe(s[i], s[j])
  }

  predicate StrictlySortedStr(s: seq<string>) {
    SortedStr(s) && Distinct(s)
  }

  function InsertStr(x: string, s: seq<string>): (r: seq<string>)
    ensures multiset(r) == multiset(s) + multiset{x}
  {
    if s == [] then [x]
    else if StrLe(x, s[0]) then [x] + s
    else
      assert s == [s[0]] + s[1..];
      [s[0]] + InsertStr(x, s[1..])
  }

  lemma ConsSortedStr(h: string, t: seq<string>)
    requires SortedStr(t)
    requires forall k :: 0 <= k < |t| ==> StrLe(h, t[k])
    ensures SortedStr([h] + t)
  {
    var r := [h] + t;
    forall i, j | 0 <= i < j < |r| ensures StrLe(r[i], r[j]) {
      assert r[j] == t[j - 1];
      if i > 0 {
        assert r[i] == t[i - 1];
      }
    }
  }

  /** Inserting into a sorted list keeps it sorted. */
  lemma {:induction false} InsertStrSorted(x: string, s: seq<string>)
    requires SortedStr(s)
    ensures SortedStr(InsertStr(x, s))
    decreases |s|
  {
    if s == [] {
    } else if StrLe(x, s[0]) {
      forall k | 0 <= k < |s| ensures StrLe(x, s[k]) {
        if k > 0 { StrLeTransitive(x, s[0], s[k]); }
      }
      ConsSortedStr(x, s);
    } else {
      var rest := s[1..];
      var tail := InsertStr(x, rest);
      InsertStrSorted(x, rest);
      StrLeTotal(x, s[0]);
      forall k | 0 <= k < |tail| ensures StrLe(s[0], tail[k]) {
        var y := tail[k];
        assert y in multiset(tail);
        if y != x {
          assert y in multiset(rest);
          var i :| 0 <= i < |rest| && rest[i] == y;
          assert s[i + 1] == y;
        }
      }
      ConsSortedStr(s[0], tail);
    }
  }

  /** `sorted(s)` for a list of strings. */
  function SortStrings(s: seq<string>): (r: seq<string>)
    ensures multiset(r) == multiset(s)
    ensures SortedStr(r)
  {
    if s == [] then []
    else
      assert s == [s[0]] + s[1..];
      InsertStrSorted(s[0], SortStrings(s[1..]));
      InsertStr(s[0], SortStrings(s[1..]))
  }

  /** Two sorted arrangements of the same strings begin with the same string. */
  lemma SortedSameHead(a: seq<string>, b: seq<string>)
    requires SortedStr(a) && SortedStr(b) && multiset(a) == multiset(b) && a != []
    ensures b != [] && a[0] == b[0]
  {
    assert a[0] in multiset(b);
    assert b != [] && b[0] in multiset(a);
    var i :| 0 <= i < |a| && a[i] == b[0];
    var j :| 0 <= j < |b| && b[j] == a[0];
    assert StrLe(a[0], b[0]) by { if i > 0 { assert StrLe(a[0], a[i]); } else { StrLeTotal(a[0], a[0]); } }
    assert StrLe(b[0], a[0]) by { if j > 0 { assert StrLe(b[0], b[j]); } else { StrLeTotal(b[0], b[0]); } }
    StrLeAntisymmetric(a[0], b[0]);
  }

  lemma MultisetTail<T>(s: seq<T>)
    requires s != []
    ensures multiset(s[1..]) == multiset(s) - multiset{s[0]}
  {
    assert s == [s[0]] + s[1..];
  }

  /** Two sorted arrangements of the same strings are the same sequence. */
  lemma {:induction false} SortedUnique(a: seq<string>, b: seq<string>)
    requires SortedStr(a) && SortedStr(b) && multiset(a) == multiset(b)
    ensures a == b
    decreases |a|
  {
    if a != [] {
      SortedSameHead(a, b);
      MultisetTail(a);
      MultisetTail(b);
      SortedUnique(a[1..], b[1..]);
      assert a == [a[0]] + a[1..] && b == [b[0]] + b[1..];
    }
  }

  /** Sorting depends only on which strings there are, not on their input order. */
  lemma SortStringsPermutationInvariant(s: seq<string>, t: seq<string>)
    requires multiset(s) == multiset(t)
    ensures SortStrings(s) == SortStrings(t)
  {
    SortedUnique(SortStrings(s), SortStrings(t));
  }

  /** Sorting keeps exactly the strings it was given. */
  lemma SortStringsMembers(s: seq<string>)
    ensures forall t :: t in SortStrings(s) <==> t in s
  {
    forall t
      ensures t in SortStrings(s) <==> t in s
    {
      assert t in multiset(SortStrings(s)) <==> t in multiset(s);
    }
  }

  /** `sorted(set)`: sorting duplicate-free strings gives a strictly increasing sequence. */
  lemma SortDistinctStrict(s: seq<string>)
    requires Distinct(s)
    ensures StrictlySortedStr(SortStrings(s))
  {
    DistinctPermutation(s, SortStrings(s));
  }

  // ---------------------------------------------------------------- descending sort by a numeric key

  predicate SortedDesc<T>(s: seq<T>, key: T -> real) {
    forall i, j :: 0 <= i < j < |s| ==> key(s[i]) >= key(s[j])
  }

  function InsertDesc<T(==)>(x: T, s: seq<T>, key: T -> real): (r: seq<T>)
    ensures multiset(r) == multiset(s) + multiset{x}
  {
    if s == [] then [x]
    else if key(x) >= key(s[0]) then [x] + s
    else
      assert s == [s[0]] + s[1..];
      [s[0]] + InsertDesc(x, s[1..], key)
  }

  lemma ConsSortedDesc<T>(h: T, t: seq<T>, key: T -> real)
    requires SortedDesc(t, key)
    requires forall k :: 0 <= k < |t| ==> key(h) >= key(t[k])
    ensures SortedDesc([h] + t, key)
  {
    var r := [h] + t;
    forall i, j | 0 <= i < j < |r| ensures key(r[i]) >= key(r[j]) {
      assert r[j] == t[j - 1];
      if i > 0 {
        assert r[i] == t[i - 1];
      }
    }
  }

  /** Inserting into a list sorted by descending key keeps it sorted. */
  lemma {:induction false} InsertDescSorted<T>(x: T, s: seq<T>, key: T -> real)
    requires SortedDesc(s, key)
    ensures SortedDesc(InsertDesc(x, s, key), key)
    decreases |s|
  {
    if s == [] {
    } else if key(x) >= key(s[0]) {
      ConsSortedDesc(x, s, key);
    } else {
      var rest := s[1..];
      var tail := InsertDesc(x, rest, key);
      InsertDescSorted(x, rest, key);
      forall k | 0 <= k < |tail| ensures key(s[0]) >= key(tail[k]) {
        var y := tail[k];
        assert y in multiset(tail);
        if y != x {
          assert y in multiset(rest);
          var i :| 0 <= i < |rest| && rest[i] == y;
          assert s[i + 1] == y;
        }
      }
      ConsSortedDesc(s[0], tail, key);
    }
  }

  /** SQL `ORDER BY key DESC` on a table scan; rows with equal keys keep table order. */
  function SortDescBy<T(==)>(s: seq<T>, key: T -> real): (r: seq<T>)
    ensures multiset(r) == multiset(s)
    ensures SortedDesc(r, key)
  {
    if s == [] then []
    else
      assert s == [s[0]] + s[1..];
      InsertDescSorted(s[0], SortDescBy(s[1..], key), key);
      InsertDesc(s[0], SortDescBy(s[1..], key), key)
  }
}
