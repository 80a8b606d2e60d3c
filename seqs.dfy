/** The array methods the screens call on their lists: `find`, `filter`,
    `sort` and the de-duplication done by `new Set(...)`. */
module Seqs {
  import opened Text

  datatype Option<T> = None | Some(value: T)

  /** `findIndex`: the first position whose element satisfies `p`. */
  function FirstIndex<T>(s: seq<T>, p: T -> bool): (r: Option<nat>)
    ensures r.Some? ==> r.value < |s| && p(s[r.value])
    ensures r.Some? ==> forall j :: 0 <= j < r.value ==> !p(s[j])
    ensures r.None? <==> forall j :: 0 <= j < |s| ==> !p(s[j])
  {
    if s == [] then None
    else if p(s[0]) then Some(0)
    else match FirstIndex(s[1..], p)
      case None => None
      case Some(k) => Some(k + 1)
  }

  /** `filter`: the elements that satisfy `p`, in their original order. */
  function Filter<T>(s: seq<T>, p: T -> bool): (r: seq<T>)
    ensures |r| <= |s|
    ensures forall i :: 0 <= i < |r| ==> r[i] in s && p(r[i])
    ensures forall i :: 0 <= i < |s| && p(s[i]) ==> s[i] in r
  {
    if s == [] then [] else (if p(s[0]) then [s[0]] else []) + Filter(s[1..], p)
  }

  /** `a` is `b` with some elements left out and the others in order. */
  ghost predicate SubsequenceOf<T>(a: seq<T>, b: seq<T>)
    decreases |b|
  {
    a == [] || (b != [] && ((a[0] == b[0] && SubsequenceOf(a[1..], b[1..])) || SubsequenceOf(a, b[1..])))
  }

  lemma {:induction false} FilterIsSubsequence<T>(s: seq<T>, p: T -> bool)
    ensures SubsequenceOf(Filter(s, p), s)
  {
    if s != [] {
      FilterIsSubsequence(s[1..], p);
      var r := Filter(s, p);
      if p(s[0]) {
        assert r == [s[0]] + Filter(s[1..], p);
        assert r[1..] == Filter(s[1..], p);
        assert SubsequenceOf(r[1..], s[1..]);
      } else {
        assert r == Filter(s[1..], p);
        assert SubsequenceOf(r, s[1..]);
      }
    }
  }

  lemma {:induction false} FilterAppend<T>(a: seq<T>, b: seq<T>, p: T -> bool)
    ensures Filter(a + b, p) == Filter(a, p) + Filter(b, p)
  {
    if a == [] {
      assert a + b == b;
    } else {
      assert (a + b)[0] == a[0] && (a + b)[1..] == a[1..] + b;
      FilterAppend(a[1..], b, p);
    }
  }

  /** Two predicates that agree on every element select the same elements. */
  lemma {:induction false} FilterAgree<T>(s: seq<T>, p: T -> bool, q: T -> bool)
    requires forall x :: x in s ==> p(x) == q(x)
    ensures Filter(s, p) == Filter(s, q)
  {
    if s != [] {
      assert s[0] in s;
      FilterAgree(s[1..], p, q);
    }
  }

  /** Filtering out a single element that occurs once leaves the elements
      before it and after it, in their order. */
  lemma {:induction false} FilterOutOne<T>(s: seq<T>, k: nat, p: T -> bool)
    requires k < |s| && !p(s[k])
    requires forall j :: 0 <= j < |s| && j != k ==> p(s[j])
    ensures Filter(s, p) == s[..k] + s[k + 1..]
  {
    var before, after := s[..k], s[k + 1..];
    assert Filter(s, p) == Filter(before, p) + Filter([s[k]] + after, p) by {
      assert s == before + ([s[k]] + after);
      FilterAppend(before, [s[k]] + after, p);
    }
    assert Filter([s[k]] + after, p) == Filter(after, p) by {
      assert ([s[k]] + after)[0] == s[k] && ([s[k]] + after)[1..] == after;
    }
    assert Filter(before, p) == before by {
      forall j | 0 <= j < |before| ensures p(before[j]) {
        assert before[j] == s[j];
      }
      FilterKeepsAll(before, p);
    }
    assert Filter(after, p) == after by {
      forall j | 0 <= j < |after| ensures p(after[j]) {
        assert after[j] == s[k + 1 + j];
      }
      FilterKeepsAll(after, p);
    }
  }

  lemma {:induction false} FilterKeepsAll<T>(s: seq<T>, p: T -> bool)
    requires forall j :: 0 <= j < |s| ==> p(s[j])
    ensures Filter(s, p) == s
  {
    if s != [] {
      FilterKeepsAll(s[1..], p);
      assert s == [s[0]] + s[1..];
    }
  }

  /** Non-decreasing with respect to the name order, as `sort` leaves it. */
  predicate SortedBy<T>(s: seq<T>, key: T -> string) {
    forall i, j :: 0 <= i < j < |s| ==> LexLe(key(s[i]), key(s[j]))
  }

  /** Places `x` after every element whose key is not greater than its own. */
  function InsertBy<T>(x: T, s: seq<T>, key: T -> string): (r: seq<T>)
  {
    if s == [] || !LexLe(key(s[0]), key(x)) then [x] + s else [s[0]] + InsertBy(x, s[1..], key)
  }

  /** `sort` with a comparator on `key`: insertion sort, which is stable. */
  function SortBy<T>(s: seq<T>, key: T -> string): (r: seq<T>)
  {
    if s == [] then [] else InsertBy(s[|s| - 1], SortBy(s[..|s| - 1], key), key)
  }

  lemma {:induction false} InsertByPermutes<T>(x: T, s: seq<T>, key: T -> string)
    ensures multiset(InsertBy(x, s, key)) == multiset(s) + multiset{x}
  {
    if s != [] && LexLe(key(s[0]), key(x)) {
      InsertByPermutes(x, s[1..], key);
      assert s == [s[0]] + s[1..];
    }
  }

  /** Putting in front an element whose key is below every key keeps the
      order. */
  lemma SortedCons<T>(x: T, t: seq<T>, key: T -> string)
    requires SortedBy(t, key)
    requires forall j :: 0 <= j < |t| ==> LexLe(key(x), key(t[j]))
    ensures SortedBy([x] + t, key)
  {
    var r := [x] + t;
    forall i, j | 0 <= i < j < |r| ensures LexLe(key(r[i]), key(r[j])) {
      assert r[j] == t[j - 1];
      if i > 0 {
        assert r[i] == t[i - 1];
      }
    }
  }

  /** A lower bound of `x` and of every element of `s` bounds the insertion. */
  lemma {:induction false} InsertByLowerBound<T>(b: string, x: T, s: seq<T>, key: T -> string)
    requires LexLe(b, key(x))
    requires forall j :: 0 <= j < |s| ==> LexLe(b, key(s[j]))
    ensures forall j :: 0 <= j < |InsertBy(x, s, key)| ==> LexLe(b, key(InsertBy(x, s, key)[j]))
  {
    var r := InsertBy(x, s, key);
    if s == [] || !LexLe(key(s[0]), key(x)) {
      forall j | 0 < j < |r| ensures LexLe(b, key(r[j])) {
        assert r[j] == s[j - 1];
      }
    } else {
      var t := InsertBy(x, s[1..], key);
      InsertByLowerBound(b, x, s[1..], key);
      forall j | 0 < j < |r| ensures LexLe(b, key(r[j])) {
        assert r[j] == t[j - 1];
      }
    }
  }

  lemma {:induction false} InsertBySorted<T>(x: T, s: seq<T>, key: T -> string)
    requires SortedBy(s, key)
    ensures SortedBy(InsertBy(x, s, key), key)
  {
    if s == [] {
    } else if !LexLe(key(s[0]), key(x)) {
      LexLeTotal(key(s[0]), key(x));
      forall j | 0 <= j < |s| ensures LexLe(key(x), key(s[j])) {
        if j > 0 {
          LexLeTransitive(key(x), key(s[0]), key(s[j]));
        }
      }
      SortedCons(x, s, key);
    } else {
      var tail := s[1..];
      assert SortedBy(tail, key) by {
        forall i, j | 0 <= i < j < |tail| ensures LexLe(key(tail[i]), key(tail[j])) {
          assert tail[i] == s[i + 1] && tail[j] == s[j + 1];
        }
      }
      InsertBySorted(x, tail, key);
      forall j | 0 <= j < |tail| ensures LexLe(key(s[0]), key(tail[j])) {
        assert tail[j] == s[j + 1];
      }
      InsertByLowerBound(key(s[0]), x, tail, key);
      SortedCons(s[0], InsertBy(x, tail, key), key);
    }
  }

  lemma {:induction false} SortBySorted<T>(s: seq<T>, key: T -> string)
    ensures SortedBy(SortBy(s, key), key)
  {
    if s != [] {
      SortBySorted(s[..|s| - 1], key);
      InsertBySorted(s[|s| - 1], SortBy(s[..|s| - 1], key), key);
    }
  }

  lemma {:induction false} SortByPermutes<T>(s: seq<T>, key: T -> string)
    ensures multiset(SortBy(s, key)) == multiset(s)
  {
    if s != [] {
      SortByPermutes(s[..|s| - 1], key);
      InsertByPermutes(s[|s| - 1], SortBy(s[..|s| - 1], key), key);
      assert s == s[..|s| - 1] + [s[|s| - 1]];
    }
  }

  /** `sort` returns a non-decreasing rearrangement of its input. */
  lemma SortByCorrect<T>(s: seq<T>, key: T -> string)
    ensures SortedBy(SortBy(s, key), key)
    ensures multiset(SortBy(s, key)) == multiset(s)
    ensures |SortBy(s, key)| == |s|
  {
    SortBySorted(s, key);
    SortByPermutes(s, key);
    assert |multiset(SortBy(s, key))| == |multiset(s)|;
  }

  /** Each value of `s` once, at its first occurrence. */
  function Dedup<T(==)>(s: seq<T>): (r: seq<T>)
    ensures forall i, j :: 0 <= i < j < |r| ==> r[i] != r[j]
    ensures forall i :: 0 <= i < |r| ==> r[i] in s
    ensures forall i :: 0 <= i < |s| ==> s[i] in r
  {
    if s == [] then []
    else
      var d := Dedup(s[..|s| - 1]);
      assert forall i :: 0 <= i < |s| - 1 ==> s[i] == s[..|s| - 1][i];
      if s[|s| - 1] in d then d else d + [s[|s| - 1]]
  }

  function Reverse<T>(s: seq<T>): (r: seq<T>)
    ensures |r| == |s|
    ensures forall i :: 0 <= i < |s| ==> r[i] == s[|s| - 1 - i]
  {
    if s == [] then [] else Reverse(s[1..]) + [s[0]]
  }

  /** No two elements share a key. */
  predicate DistinctKeys<T, K(==)>(s: seq<T>, key: T -> K) {
    forall i, j :: 0 <= i < j < |s| ==> key(s[i]) != key(s[j])
  }

  /** A rearrangement of a sequence whose keys are distinct has distinct keys. */
  lemma PermutationKeepsDistinctKeys<T, K>(a: seq<T>, b: seq<T>, key: T -> K)
    requires multiset(a) == multiset(b) && DistinctKeys(a, key)
    ensures DistinctKeys(b, key)
  {
    forall i, j | 0 <= i < j < |b| ensures key(b[i]) != key(b[j]) {
      assert b[i] in multiset(a) && b[j] in multiset(a);
      var p :| 0 <= p < |a| && a[p] == b[i];
      var q :| 0 <= q < |a| && a[q] == b[j];
      if p == q {
        assert b == b[..j] + [b[j]] + b[j + 1..];
        assert b[i] in b[..j];
        assert multiset(b)[b[i]] >= 2 by {
          assert multiset(b) == multiset(b[..j]) + multiset{b[j]} + multiset(b[j + 1..]);
        }
        DistinctCountsOnce(a, b[i], key);
      } else if p < q {
        assert key(a[p]) != key(a[q]);
      } else {
        assert key(a[q]) != key(a[p]);
      }
    }
  }

  /** The tail of a sequence with distinct keys has distinct keys, none of
      them the head's. */
  lemma TailKeepsDistinctKeys<T, K>(s: seq<T>, key: T -> K)
    requires s != [] && DistinctKeys(s, key)
    ensures DistinctKeys(s[1..], key)
    ensures forall y :: y in s[1..] ==> key(y) != key(s[0])
  {
    var tail := s[1..];
    forall i, j | 0 <= i < j < |tail| ensures key(tail[i]) != key(tail[j]) {
      assert tail[i] == s[i + 1] && tail[j] == s[j + 1];
    }
    forall y | y in tail ensures key(y) != key(s[0]) {
      var m :| 0 <= m < |tail| && tail[m] == y;
      assert s[m + 1] == y;
    }
  }

  /** A head whose key no element of `f` has keeps the keys distinct. */
  lemma ConsKeepsDistinctKeys<T, K>(x: T, f: seq<T>, key: T -> K)
    requires DistinctKeys(f, key)
    requires forall y :: y in f ==> key(y) != key(x)
    ensures DistinctKeys([x] + f, key)
  {
    var r := [x] + f;
    forall i, j | 0 <= i < j < |r| ensures key(r[i]) != key(r[j]) {
      assert r[j] == f[j - 1];
      if i > 0 {
        assert r[i] == f[i - 1];
      }
    }
  }

  /** Leaving elements out keeps the keys of the rest distinct. */
  lemma {:induction false} FilterKeepsDistinctKeys<T, K>(s: seq<T>, p: T -> bool, key: T -> K)
    requires DistinctKeys(s, key)
    ensures DistinctKeys(Filter(s, p), key)
  {
    if s != [] {
      var tail := s[1..];
      TailKeepsDistinctKeys(s, key);
      FilterKeepsDistinctKeys(tail, p, key);
      var f := Filter(tail, p);
      if p(s[0]) {
        forall y | y in f ensures key(y) != key(s[0]) {
          var m :| 0 <= m < |f| && f[m] == y;
          assert y in tail;
        }
        ConsKeepsDistinctKeys(s[0], f, key);
      } else {
        assert Filter(s, p) == f;
      }
    }
  }

  /** Elements with distinct keys are distinct values: each occurs at most once. */
  lemma {:induction false} DistinctCountsOnce<T, K>(a: seq<T>, x: T, key: T -> K)
    requires DistinctKeys(a, key)
    ensures multiset(a)[x] <= 1
  {
    if a != [] {
      TailKeepsDistinctKeys(a, key);
      DistinctCountsOnce(a[1..], x, key);
      assert a == [a[0]] + a[1..];
      if a[0] == x {
        assert x !in a[1..];
      }
    }
  }

  /** The sum of `f` over the elements, from the first to the last. */
  function SumOf<T>(s: seq<T>, f: T -> int): int {
    if s == [] then 0 else SumOf(s[..|s| - 1], f) + f(s[|s| - 1])
  }

  lemma {:induction false} SumOfAppend<T>(a: seq<T>, b: seq<T>, f: T -> int)
    ensures SumOf(a + b, f) == SumOf(a, f) + SumOf(b, f)
  {
    if b == [] {
      assert a + b == a;
    } else {
      SumOfAppend(a, b[..|b| - 1], f);
      assert (a + b)[..|a + b| - 1] == a + b[..|b| - 1];
    }
  }

  lemma SumOfSingleton<T>(x: T, f: T -> int)
    ensures SumOf([x], f) == f(x)
  {
    assert [x][..0] == [];
  }

  /** Replacing one element changes the sum by the difference. */
  lemma SumOfUpdate<T>(s: seq<T>, k: nat, x: T, f: T -> int)
    requires k < |s|
    ensures SumOf(s[k := x], f) == SumOf(s, f) - f(s[k]) + f(x)
  {
    assert s == s[..k] + [s[k]] + s[k + 1..];
    assert s[k := x] == s[..k] + [x] + s[k + 1..];
    SumOfAppend(s[..k] + [s[k]], s[k + 1..], f);
    SumOfAppend(s[..k], [s[k]], f);
    SumOfAppend(s[..k] + [x], s[k + 1..], f);
    SumOfAppend(s[..k], [x], f);
    SumOfSingleton(s[k], f);
    SumOfSingleton(x, f);
  }

  /** Leaving one element out lowers the sum by that element's share. */
  lemma {:induction false} SumOfRemove<T>(s: seq<T>, k: nat, f: T -> int)
    requires k < |s|
    ensures SumOf(s[..k] + s[k + 1..], f) == SumOf(s, f) - f(s[k])
  {
    var u := s[..k] + s[k + 1..];
    var t := s[..|s| - 1];
    if k == |s| - 1 {
      assert u == t;
    } else {
      SumOfRemove(t, k, f);
      assert u[..|u| - 1] == t[..k] + t[k + 1..];
      assert u[|u| - 1] == s[|s| - 1];
    }
  }

  /** Sequences that agree element-wise on the summed quantity have equal sums. */
  lemma {:induction false} SumOfPointwise<T, U>(a: seq<T>, f: T -> int, b: seq<U>, g: U -> int)
    requires |a| == |b|
    requires forall i :: 0 <= i < |a| ==> f(a[i]) == g(b[i])
    ensures SumOf(a, f) == SumOf(b, g)
  {
    if a != [] {
      SumOfPointwise(a[..|a| - 1], f, b[..|b| - 1], g);
    }
  }

  /** A sum whose terms each split in two is the sum of the two parts. */
  lemma {:induction false} SumOfSplit<T, U>(a: seq<T>, f: T -> int, b: seq<U>, g: U -> int, h: U -> int)
    requires |a| == |b|
    requires forall i :: 0 <= i < |a| ==> f(a[i]) == g(b[i]) + h(b[i])
    ensures SumOf(a, f) == SumOf(b, g) + SumOf(b, h)
  {
    if a != [] {
      SumOfSplit(a[..|a| - 1], f, b[..|b| - 1], g, h);
    }
  }

  /** A sum of zeros is zero. */
  lemma {:induction false} SumOfZero<T>(a: seq<T>, f: T -> int)
    requires forall i :: 0 <= i < |a| ==> f(a[i]) == 0
    ensures SumOf(a, f) == 0
  {
    if a != [] {
      SumOfZero(a[..|a| - 1], f);
    }
  }

  lemma {:induction false} SumOfInsertBy<T>(x: T, s: seq<T>, key: T -> string, f: T -> int)
    ensures SumOf(InsertBy(x, s, key), f) == f(x) + SumOf(s, f)
  {
    SumOfSingleton(x, f);
    if s == [] || !LexLe(key(s[0]), key(x)) {
      SumOfAppend([x], s, f);
    } else {
      SumOfInsertBy(x, s[1..], key, f);
      SumOfAppend([s[0]], InsertBy(x, s[1..], key), f);
      SumOfAppend([s[0]], s[1..], f);
      SumOfSingleton(s[0], f);
      assert s == [s[0]] + s[1..];
    }
  }

  /** Sorting does not change a sum. */
  lemma {:induction false} SumOfSortBy<T>(s: seq<T>, key: T -> string, f: T -> int)
    ensures SumOf(SortBy(s, key), f) == SumOf(s, f)
  {
    if s != [] {
      SumOfSortBy(s[..|s| - 1], key, f);
      SumOfInsertBy(s[|s| - 1], SortBy(s[..|s| - 1], key), key, f);
    }
  }

  /** The sum of `f` over the elements that satisfy `p`, element by element. */
  function SumWhere<T>(s: seq<T>, p: T -> bool, f: T -> int): int {
    if s == [] then 0 else (if p(s[0]) then f(s[0]) else 0) + SumWhere(s[1..], p, f)
  }

  /** How many elements satisfy `p`. */
  function CountWhere<T>(s: seq<T>, p: T -> bool): nat {
    if s == [] then 0 else (if p(s[0]) then 1 else 0) + CountWhere(s[1..], p)
  }

  /** Summing over the filtered elements is summing `f` where `p` holds,
      and the filter keeps as many elements as satisfy `p`. */
  lemma {:induction false} SumOfFilter<T>(s: seq<T>, p: T -> bool, f: T -> int)
    ensures SumOf(Filter(s, p), f) == SumWhere(s, p, f)
    ensures |Filter(s, p)| == CountWhere(s, p)
  {
    if s != [] {
      SumOfFilter(s[1..], p, f);
      var head := if p(s[0]) then [s[0]] else [];
      SumOfAppend(head, Filter(s[1..], p), f);
      if p(s[0]) {
        SumOfSingleton(s[0], f);
      }
    }
  }

  /** A sum of terms that are each at least 1 is at least their number. */
  lemma {:induction false} SumWhereAtLeastCount<T>(s: seq<T>, p: T -> bool, f: T -> int)
    requires forall i :: 0 <= i < |s| ==> f(s[i]) >= 1
    ensures SumWhere(s, p, f) >= CountWhere(s, p)
  {
    if s != [] {
      assert forall i :: 0 <= i < |s[1..]| ==> f(s[1..][i]) >= 1 by {
        forall i | 0 <= i < |s[1..]| ensures f(s[1..][i]) >= 1 {
          assert s[1..][i] == s[i + 1];
        }
      }
      SumWhereAtLeastCount(s[1..], p, f);
      assert f(s[0]) >= 1;
    }
  }

  lemma FilterMembers<T>(s: seq<T>, p: T -> bool, x: T)
    ensures x in Filter(s, p) <==> x in s && p(x)
  {
    var r := Filter(s, p);
    if x in r {
      var i :| 0 <= i < |r| && r[i] == x;
    }
    if x in s && p(x) {
      var i :| 0 <= i < |s| && s[i] == x;
    }
  }

  lemma DedupMembers<T>(s: seq<T>, x: T)
    ensures x in Dedup(s) <==> x in s
  {
    var r := Dedup(s);
    if x in r {
      var i :| 0 <= i < |r| && r[i] == x;
    }
    if x in s {
      var i :| 0 <= i < |s| && s[i] == x;
    }
  }

  lemma ReverseMembers<T>(s: seq<T>, x: T)
    ensures x in Reverse(s) <==> x in s
  {
    var r := Reverse(s);
    if x in r {
      var i :| 0 <= i < |r| && r[i] == x;
      assert s[|s| - 1 - i] == x;
    }
    if x in s {
      var i :| 0 <= i < |s| && s[i] == x;
      assert r[|s| - 1 - i] == x;
    }
  }

  /** A sorted sequence without repeated keys, reversed, runs strictly downwards. */
  lemma ReverseOfSorted<T>(s: seq<T>, key: T -> string)
    requires SortedBy(s, key) && DistinctKeys(s, key)
    ensures var r := Reverse(s);
      forall i, j :: 0 <= i < j < |r| ==> LexLe(key(r[j]), key(r[i])) && key(r[i]) != key(r[j])
  {
    var r := Reverse(s);
    forall i, j | 0 <= i < j < |r| ensures LexLe(key(r[j]), key(r[i])) && key(r[i]) != key(r[j]) {
      var a, b := |s| - 1 - j, |s| - 1 - i;
      assert r[j] == s[a] && r[i] == s[b] && a < b;
    }
  }
}
