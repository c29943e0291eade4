/**
 * Round-robin dealing of a list into `k` lists, as the partitioning code
 * does it (element `j` goes to list `j % k`), with the facts about it that
 * the partitioning and placement code relies on; and the integer square
 * root that `(int)Math.sqrt(n)` computes for the number of lists.
 */
module Dealing {
  import Sorting
  import Seqs

  /** The elements of `s` whose position is `p` modulo `k`, in order. */
  function Column<T>(s: seq<T>, k: int, p: int): seq<T>
    requires k > 0
  {
    if s == [] then []
    else Column(s[..|s| - 1], k, p) + (if (|s| - 1) % k == p then [s[|s| - 1]] else [])
  }

  /** `k` lists; the element at position `j` goes to list `j % k`. */
  function Deal<T>(s: seq<T>, k: int): (r: seq<seq<T>>)
    requires s != [] ==> k > 0
    ensures |r| == if k > 0 then k else 0
  {
    if k <= 0 then [] else seq(k, p requires 0 <= p < k => Column(s, k, p))
  }

  lemma ColumnStep<T>(s: seq<T>, x: T, k: int, p: int)
    requires k > 0
    ensures Column(s + [x], k, p) == Column(s, k, p) + (if |s| % k == p then [x] else [])
  {
    assert (s + [x])[..|s|] == s;
  }

  lemma DealStep<T>(s: seq<T>, x: T, k: int)
    requires k > 0
    ensures Deal(s + [x], k) == Deal(s, k)[|s| % k := Deal(s, k)[|s| % k] + [x]]
  {
    forall p | 0 <= p < k ensures Deal(s + [x], k)[p] == Deal(s, k)[|s| % k := Deal(s, k)[|s| % k] + [x]][p] {
      ColumnStep(s, x, k, p);
    }
  }

  /** Dealing one more element of `s` appends it to list `i % k`. */
  lemma DealPrefixStep<T>(s: seq<T>, i: int, k: int)
    requires k > 0 && 0 <= i < |s|
    ensures Deal(s[..i + 1], k) == Deal(s[..i], k)[i % k := Deal(s[..i], k)[i % k] + [s[i]]]
  {
    assert s[..i + 1] == s[..i] + [s[i]];
    DealStep(s[..i], s[i], k);
  }

  lemma {:induction false} MulAtLeast(d: int, k: int)
    requires d >= 1 && k > 0
    ensures d * k >= k
  {
    if d > 1 {
      MulAtLeast(d - 1, k);
      assert d * k == (d - 1) * k + k;
    }
  }

  /** Uniqueness of quotient and remainder. */
  lemma DivModUnique(m: int, k: int, q: int, r: int)
    requires k > 0 && 0 <= r < k && m == q * k + r
    ensures m / k == q && m % k == r
  {
    var q', r' := m / k, m % k;
    assert m == q' * k + r';
    if q' > q {
      MulAtLeast(q' - q, k);
      assert false;
    } else if q' < q {
      MulAtLeast(q - q', k);
      assert false;
    }
  }

  /** How quotient and remainder change from `n` to `n + 1`. */
  lemma DivModStep(n: nat, k: int)
    requires k > 0
    ensures n % k + 1 < k ==> (n + 1) / k == n / k && (n + 1) % k == n % k + 1
    ensures n % k + 1 == k ==> (n + 1) / k == n / k + 1 && (n + 1) % k == 0
  {
    var q, r := n / k, n % k;
    if r + 1 < k {
      DivModUnique(n + 1, k, q, r + 1);
    } else {
      DivModUnique(n + 1, k, q + 1, 0);
    }
  }

  /** List `p` holds `|s| / k` elements, one more when `p` is below `|s| % k`. */
  lemma {:induction false} ColumnSize<T>(s: seq<T>, k: int, p: int)
    requires 0 <= p < k
    ensures |Column(s, k, p)| == |s| / k + (if p < |s| % k then 1 else 0)
  {
    if s != [] {
      var n := |s| - 1;
      ColumnSize(s[..n], k, p);
      assert |Column(s, k, p)| == |Column(s[..n], k, p)| + (if n % k == p then 1 else 0);
      DivModStep(n, k);
      if n % k + 1 < k {
        assert |s| / k == n / k && |s| % k == n % k + 1;
      } else {
        assert |s| / k == n / k + 1 && |s| % k == 0;
      }
    }
  }

  /** The element at position `j` sits in list `j % k` at index `j / k`. */
  lemma {:induction false} ColumnIndex<T>(s: seq<T>, k: int, j: int)
    requires k > 0 && 0 <= j < |s|
    ensures j / k < |Column(s, k, j % k)| && Column(s, k, j % k)[j / k] == s[j]
  {
    var n := |s| - 1;
    if j == n {
      ColumnSize(s[..n], k, j % k);
    } else {
      ColumnIndex(s[..n], k, j);
    }
  }

  /** Everything a list holds comes from `s`. */
  lemma {:induction false} ColumnFrom<T>(s: seq<T>, k: int, p: int, x: T)
    requires k > 0 && x in Column(s, k, p)
    ensures x in s
  {
    var n := |s| - 1;
    if x !in Column(s[..n], k, p) {
      assert x == s[n];
    } else {
      ColumnFrom(s[..n], k, p, x);
    }
  }

  lemma {:induction false} ColumnSorted(s: seq<string>, k: int, p: int)
    requires k > 0 && Sorting.Sorted(s)
    ensures Sorting.Sorted(Column(s, k, p))
  {
    if s != [] {
      var n := |s| - 1;
      ColumnSorted(s[..n], k, p);
      var c := Column(s[..n], k, p);
      forall i | 0 <= i < |c| ensures Sorting.LessEq(c[i], s[n]) {
        ColumnFrom(s[..n], k, p, c[i]);
      }
    }
  }

  lemma {:induction false} ColumnMap<A, B>(f: A -> B, s: seq<A>, k: int, p: int)
    requires k > 0
    ensures Column(Seqs.Map(f, s), k, p) == Seqs.Map(f, Column(s, k, p))
  {
    if s != [] {
      var n := |s| - 1;
      assert Seqs.Map(f, s)[..n] == Seqs.Map(f, s[..n]);
      ColumnMap(f, s[..n], k, p);
      Seqs.MapConcat(f, Column(s[..n], k, p), if n % k == p then [s[n]] else []);
    }
  }

  lemma {:induction false} DealMultiset<T>(s: seq<T>, k: int)
    requires k > 0
    ensures multiset(Seqs.Flatten(Deal(s, k))) == multiset(s)
  {
    if s == [] {
      Seqs.FlattenEmpties(Deal(s, k));
    } else {
      var n := |s| - 1;
      var prev := Deal(s[..n], k);
      DealMultiset(s[..n], k);
      assert s == s[..n] + [s[n]];
      DealStep(s[..n], s[n], k);
      assert Deal(s, k) == prev[n % k := prev[n % k] + [s[n]]];
      Seqs.FlattenAppendAt(prev, n % k, s[n]);
      assert multiset(s) == multiset(s[..n]) + multiset{s[n]};
    }
  }


  /** Each of the `k` lists is non-empty when there are at least `k` elements. */
  lemma ColumnNonEmpty<T>(s: seq<T>, k: int, p: int)
    requires 0 <= p < k <= |s|
    ensures |Column(s, k, p)| >= 1
  {
    ColumnSize(s, k, p);
    if |s| / k == 0 {
      DivModUnique(|s|, k, 0, |s|);
      assert false;
    }
  }

  // ---------------------------------------------------------------------
  // Integer square root

  /** `(int)Math.sqrt(n)`: the largest `r` whose square does not exceed `n`. */
  function FloorSqrt(n: nat): (r: nat)
    ensures r * r <= n < (r + 1) * (r + 1)
  {
    if n == 0 then 0
    else
      var r := FloorSqrt(n - 1);
      if (r + 1) * (r + 1) <= n then r + 1 else r
  }

  /** With at least one element there is at least one list and no more lists than elements. */
  lemma FloorSqrtBounds(n: nat)
    requires n >= 1
    ensures 1 <= FloorSqrt(n) <= n
  {
    var r := FloorSqrt(n);
    if r > n {
      assert r * r > n by { MulAtLeast(r, r); }
      assert false;
    }
  }

  /** `Utils.consistentHashAString(g, n)` picks an index in `[0, n)` for every non-empty range. */
  ghost predicate HashWithin(hash: (string, int) -> int)
  {
    forall g, n :: n > 0 ==> 0 <= hash(g, n) < n
  }
}
