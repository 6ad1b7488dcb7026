/** Generic sequence machinery shared by the load step, the animal-type filter
    and the aggregations: order-preserving filtering, subsequences and
    frequency tables. */
module Seqs {
  import opened Wrappers

  /** `a` is obtained from `b` by deleting elements, keeping the order. */
  ghost predicate Subseq<T>(a: seq<T>, b: seq<T>)
    decreases |b|
  {
    |a| == 0 ||
    (|b| > 0 && ((a[0] == b[0] && Subseq(a[1..], b[1..])) || Subseq(a, b[1..])))
  }

  /** No element occurs twice. */
  ghost predicate Distinct<T>(s: seq<T>) {
    forall i, j :: 0 <= i < j < |s| ==> s[i] != s[j]
  }

  lemma {:induction false} SubseqMultiset<T>(a: seq<T>, b: seq<T>)
    requires Subseq(a, b)
    ensures multiset(a) <= multiset(b)
    decreases |b|
  {
    if |a| == 0 {
    } else {
      assert b == [b[0]] + b[1..];
      if a[0] == b[0] && Subseq(a[1..], b[1..]) {
        SubseqMultiset(a[1..], b[1..]);
        assert a == [a[0]] + a[1..];
      } else {
        SubseqMultiset(a, b[1..]);
      }
    }
  }

  lemma {:induction false} SubseqReflexive<T>(s: seq<T>)
    ensures Subseq(s, s)
    decreases |s|
  {
    if |s| > 0 {
      SubseqReflexive(s[1..]);
    }
  }

  /** The elements of `s` that satisfy `p`, in their original order
      (a boolean-mask selection on a data frame). */
  function Filter<T(!new)>(s: seq<T>, p: T -> bool): (r: seq<T>)
    ensures |r| <= |s|
    ensures forall i :: 0 <= i < |r| ==> p(r[i])
    ensures Subseq(r, s)
    ensures forall x :: multiset(r)[x] == if p(x) then multiset(s)[x] else 0
    decreases |s|
  {
    if |s| == 0 then []
    else
      assert s == [s[0]] + s[1..];
      var rest := Filter(s[1..], p);
      if p(s[0]) then
        assert ([s[0]] + rest)[1..] == rest;
        [s[0]] + rest
      else
        rest
  }

  /** The filter is the only order-preserving selection that keeps every
      element satisfying `p` and nothing else. */
  lemma {:induction false} FilterUnique<T(!new)>(s: seq<T>, p: T -> bool, r: seq<T>)
    requires Subseq(r, s)
    requires forall x :: multiset(r)[x] == if p(x) then multiset(s)[x] else 0
    ensures r == Filter(s, p)
    decreases |s|
  {
    if |s| == 0 {
      assert |multiset(r)| == 0;
    } else {
      var t := s[1..];
      assert s == [s[0]] + t;
      if p(s[0]) {
        assert multiset(r)[s[0]] == multiset(s)[s[0]] > 0;
        if |r| > 0 && r[0] == s[0] && Subseq(r[1..], t) {
          assert r == [r[0]] + r[1..];
          forall x ensures multiset(r[1..])[x] == if p(x) then multiset(t)[x] else 0 {
          }
          FilterUnique(t, p, r[1..]);
        } else {
          SubseqMultiset(r, t);
          assert false;
        }
      } else {
        assert s[0] !in multiset(r);
        if |r| > 0 && r[0] == s[0] {
          assert false;
        }
        assert Subseq(r, t);
        forall x ensures multiset(r)[x] == if p(x) then multiset(t)[x] else 0 {
          if p(x) {
            assert x != s[0];
          }
        }
        FilterUnique(t, p, r);
      }
    }
  }

  lemma {:induction false} FilterAll<T(!new)>(s: seq<T>, p: T -> bool)
    requires forall i :: 0 <= i < |s| ==> p(s[i])
    ensures Filter(s, p) == s
    decreases |s|
  {
    if |s| > 0 {
      FilterAll(s[1..], p);
    }
  }

  lemma {:induction false} FilterNone<T(!new)>(s: seq<T>, p: T -> bool)
    requires forall i :: 0 <= i < |s| ==> !p(s[i])
    ensures Filter(s, p) == []
    decreases |s|
  {
    if |s| > 0 {
      FilterNone(s[1..], p);
    }
  }

  /** The present values of a column, in order; missing cells are skipped
      (pandas drops NaN keys when grouping or counting). */
  function Present<T(!new)>(s: seq<Option<T>>): (r: seq<T>)
    ensures |r| <= |s|
    ensures (forall i :: 0 <= i < |s| ==> s[i].Some?) ==> |r| == |s|
    ensures forall x :: multiset(r)[x] == multiset(s)[Some(x)]
    decreases |s|
  {
    if |s| == 0 then []
    else
      assert s == [s[0]] + s[1..];
      match s[0]
      case Some(v) => [v] + Present(s[1..])
      case None => Present(s[1..])
  }

  /** A frequency table: each entry pairs a key with its number of
      occurrences. */
  type Table<K> = seq<(K, nat)>

  /** The first components of a sequence of pairs: the keys of a table. */
  function Keys<K, V>(t: seq<(K, V)>): (ks: seq<K>)
    ensures |ks| == |t|
    ensures forall i :: 0 <= i < |t| ==> ks[i] == t[i].0
  {
    seq(|t|, i requires 0 <= i < |t| => t[i].0)
  }

  /** Sum of all counts of a table. */
  function Total<K>(t: Table<K>): nat
    decreases |t|
  {
    if |t| == 0 then 0 else t[0].1 + Total(t[1..])
  }

  /** The count recorded for `k` (0 when `k` is not a key). */
  function CountOf<K(==)>(t: Table<K>, k: K): nat
    decreases |t|
  {
    if |t| == 0 then 0 else (if t[0].0 == k then t[0].1 else 0) + CountOf(t[1..], k)
  }

  /** Record one more occurrence of `k`: increment its entry, or append a new
      entry with count 1. */
  function Bump<K(==)>(t: Table<K>, k: K): (u: Table<K>)
    ensures Total(u) == Total(t) + 1
    ensures CountOf(u, k) == CountOf(t, k) + 1
    decreases |t|
  {
    if |t| == 0 then
      [(k, 1)]
    else if t[0].0 == k then
      [(k, t[0].1 + 1)] + t[1..]
    else
      var rest := Bump(t[1..], k);
      assert ([t[0]] + rest)[1..] == rest;
      [t[0]] + rest
  }

  lemma {:induction false} BumpOther<K>(t: Table<K>, k: K, j: K)
    requires j != k
    ensures CountOf(Bump(t, k), j) == CountOf(t, j)
    decreases |t|
  {
    if |t| > 0 && t[0].0 != k {
      var rest := Bump(t[1..], k);
      assert ([t[0]] + rest)[1..] == rest;
      BumpOther(t[1..], k, j);
    }
  }

  lemma {:induction false} BumpKeys<K>(t: Table<K>, k: K)
    ensures forall j :: j in Keys(Bump(t, k)) <==> j in Keys(t) || j == k
    ensures Distinct(Keys(t)) ==> Distinct(Keys(Bump(t, k)))
    ensures (forall i :: 0 <= i < |t| ==> t[i].1 > 0) ==>
              forall i :: 0 <= i < |Bump(t, k)| ==> Bump(t, k)[i].1 > 0
    decreases |t|
  {
    var u := Bump(t, k);
    if |t| == 0 {
      assert Keys(u) == [k];
    } else if t[0].0 == k {
      assert Keys(u) == Keys(t);
    } else {
      var rest := Bump(t[1..], k);
      BumpKeys(t[1..], k);
      assert Keys(t) == [t[0].0] + Keys(t[1..]);
      assert Keys(u) == [t[0].0] + Keys(rest);
      DistinctCons(t[0].0, Keys(t[1..]));
      DistinctCons(t[0].0, Keys(rest));
    }
  }

  lemma DistinctCons<T>(x: T, s: seq<T>)
    ensures Distinct([x] + s) <==> x !in s && Distinct(s)
  {
    if x !in s && Distinct(s) {
      forall i, j | 0 <= i < j < |[x] + s| ensures ([x] + s)[i] != ([x] + s)[j] {
        if i > 0 {
          assert ([x] + s)[i] == s[i - 1];
        }
      }
    }
    if Distinct([x] + s) {
      forall i, j | 0 <= i < j < |s| ensures s[i] != s[j] {
        assert s[i] == ([x] + s)[i + 1];
        assert s[j] == ([x] + s)[j + 1];
      }
      forall j | 0 <= j < |s| ensures s[j] != x {
        assert s[j] == ([x] + s)[j + 1];
        assert x == ([x] + s)[0];
      }
    }
  }

  /** The frequency table of `ks`, keys in order of first occurrence
      (`groupby(...).size()` / `value_counts`). */
  function Tally<K(==,!new)>(ks: seq<K>): (t: Table<K>)
    ensures Distinct(Keys(t))
    ensures forall i :: 0 <= i < |t| ==> t[i].1 > 0
    ensures forall k :: CountOf(t, k) == multiset(ks)[k]
    ensures forall k :: k in Keys(t) <==> k in ks
    ensures Total(t) == |ks|
    decreases |ks|
  {
    if |ks| == 0 then []
    else
      var init := ks[..|ks| - 1];
      var last := ks[|ks| - 1];
      assert ks == init + [last];
      var t0 := Tally(init);
      BumpKeys(t0, last);
      assert forall k :: k != last ==> CountOf(Bump(t0, last), k) == CountOf(t0, k) by {
        forall k | k != last { BumpOther(t0, last, k); }
      }
      Bump(t0, last)
  }

  /** In a table with distinct keys, each entry's count is the one `CountOf`
      reports for its key. */
  lemma {:induction false} EntryCount<K>(t: Table<K>, i: nat)
    requires Distinct(Keys(t))
    requires i < |t|
    ensures t[i].1 == CountOf(t, t[i].0)
    decreases |t|
  {
    assert Keys(t[1..]) == Keys(t)[1..];
    if i == 0 {
      NotKeyCountZero(t[1..], t[0].0);
    } else {
      assert Keys(t)[0] != Keys(t)[i];
      EntryCount(t[1..], i - 1);
    }
  }

  lemma {:induction false} NotKeyCountZero<K>(t: Table<K>, k: K)
    requires k !in Keys(t)
    ensures CountOf(t, k) == 0
    decreases |t|
  {
    if |t| > 0 {
      assert Keys(t)[0] == t[0].0;
      assert Keys(t[1..]) == Keys(t)[1..];
      NotKeyCountZero(t[1..], k);
    }
  }
}
