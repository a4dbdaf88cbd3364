/** Index permutations, the descending argsort used by both pipelines, and
    boolean-mask compaction (`x[keep]`, `x[mask.nonzero()]`). */
module Ordering {

  /** `p` lists every index below `n` exactly once. */
  predicate IsPermutation(p: seq<nat>, n: nat)
  {
    && |p| == n
    && (forall k :: 0 <= k < n ==> p[k] < n)
    && (forall k, l :: 0 <= k < l < n ==> p[k] != p[l])
    && (forall v :: 0 <= v < n ==> v in p)
  }

  /** Reading `xs` through `p` gives non-increasing values. */
  predicate DescendingBy(xs: seq<real>, p: seq<nat>)
    requires forall k :: 0 <= k < |p| ==> p[k] < |xs|
  {
    forall k, l :: 0 <= k < l < |p| ==> xs[p[k]] >= xs[p[l]]
  }

  function Identity(n: nat): (r: seq<nat>)
    ensures IsPermutation(r, n)
    ensures forall k :: 0 <= k < n ==> r[k] == k
  {
    var r := seq(n, k => k);
    forall v | 0 <= v < n
      ensures v in r
    {
      assert r[v] == v;
    }
    r
  }

  lemma SwapKeepsPermutation(p: seq<nat>, n: nat, i: nat, m: nat)
    requires IsPermutation(p, n) && i < n && m < n
    ensures IsPermutation(p[i := p[m]][m := p[i]], n)
  {
    var q := p[i := p[m]][m := p[i]];
    forall v | 0 <= v < n
      ensures v in q
    {
      assert v in p;
      var w :| 0 <= w < |p| && p[w] == v;
      if w == i {
        assert q[m] == v;
      } else if w == m {
        assert q[i] == v;
      } else {
        assert q[w] == v;
      }
    }
  }

  /** The first i slots of the index array hold the i largest values in
      non-increasing order. */
  predicate SortedPrefix(xs: seq<real>, s: seq<nat>, i: nat)
    requires IsPermutation(s, |xs|)
  {
    && (forall p, q :: 0 <= p < q < i && q < |s| ==> xs[s[p]] >= xs[s[q]])
    && (forall p, q :: 0 <= p < i <= q < |s| ==> xs[s[p]] >= xs[s[q]])
  }

  /** Swapping the largest remaining value into slot i extends the sorted
      prefix by one. */
  lemma SwapExtends(xs: seq<real>, s: seq<nat>, i: nat, m: nat)
    requires IsPermutation(s, |xs|) && i <= m < |xs|
    requires SortedPrefix(xs, s, i)
    requires forall q :: i <= q < |xs| ==> xs[s[m]] >= xs[s[q]]
    ensures IsPermutation(s[i := s[m]][m := s[i]], |xs|)
    ensures SortedPrefix(xs, s[i := s[m]][m := s[i]], i + 1)
  {
    SwapKeepsPermutation(s, |xs|, i, m);
  }

  /** `np.argsort(-scores)` / `torch.sort(scores, descending=True)`: neither
      sort is stable, so all the caller may rely on is that the result is some
      permutation that reads the values in non-increasing order. A selection
      sort over an index array stands in for the library sort. */
  method ArgsortDescending(xs: seq<real>) returns (order: seq<nat>)
    ensures IsPermutation(order, |xs|)
    ensures DescendingBy(xs, order)
  {
    var n := |xs|;
    var a := new nat[n](k => k);
    assert a[..] == Identity(n);
    var i := 0;
    while i < n
      invariant 0 <= i <= n
      invariant IsPermutation(a[..], n)
      invariant SortedPrefix(xs, a[..], i)
    {
      var m := MaxFrom(xs, a, i);
      ghost var before := a[..];
      SwapExtends(xs, before, i, m);
      a[i], a[m] := a[m], a[i];
      assert a[..] == before[i := before[m]][m := before[i]];
      i := i + 1;
    }
    order := a[..];
    SortedAll(xs, order);
  }

  lemma SortedAll(xs: seq<real>, s: seq<nat>)
    requires IsPermutation(s, |xs|) && SortedPrefix(xs, s, |xs|)
    ensures DescendingBy(xs, s)
  {
  }

  /** The inner scan of the selection sort: the slot from i on whose index
      reads the largest value. */
  method MaxFrom(xs: seq<real>, a: array<nat>, i: nat) returns (m: nat)
    requires i < a.Length == |xs| && IsPermutation(a[..], |xs|)
    ensures i <= m < a.Length
    ensures forall q :: i <= q < a.Length ==> xs[a[m]] >= xs[a[q]]
  {
    m := i;
    var j := i + 1;
    while j < a.Length
      invariant i < j <= a.Length && i <= m < j
      invariant forall q :: i <= q < j ==> xs[a[m]] >= xs[a[q]]
    {
      if xs[a[j]] > xs[a[m]] {
        m := j;
      }
      j := j + 1;
    }
  }

  /** Number of `true` entries of a mask (`keep.nonzero().nelement()`). */
  function Count(m: seq<bool>): (r: nat)
    ensures r <= |m|
  {
    if |m| == 0 then 0 else (if m[0] then 1 else 0) + Count(m[1..])
  }

  /** `x[keep]`: the entries whose mask bit is set, in their original order. */
  function Compact<T>(xs: seq<T>, m: seq<bool>): (r: seq<T>)
    requires |xs| == |m|
    ensures |r| == Count(m)
  {
    if |xs| == 0 then [] else (if m[0] then [xs[0]] else []) + Compact(xs[1..], m[1..])
  }

  /** Every compacted entry is an entry whose bit was set, at or after its
      new position. */
  lemma {:induction false} CompactSource<T>(xs: seq<T>, m: seq<bool>, k: nat)
    requires |xs| == |m| && k < Count(m)
    ensures exists j :: k <= j < |xs| && m[j] && Compact(xs, m)[k] == xs[j]
  {
    if m[0] && k == 0 {
      assert Compact(xs, m)[0] == xs[0];
    } else if m[0] {
      CompactSource(xs[1..], m[1..], k - 1);
      var j :| k - 1 <= j < |xs| - 1 && m[1..][j] && Compact(xs[1..], m[1..])[k - 1] == xs[1..][j];
      assert Compact(xs, m)[k] == xs[j + 1];
    } else {
      CompactSource(xs[1..], m[1..], k);
      var j :| k <= j < |xs| - 1 && m[1..][j] && Compact(xs[1..], m[1..])[k] == xs[1..][j];
      assert Compact(xs, m)[k] == xs[j + 1];
    }
  }

  predicate NonIncreasing(xs: seq<real>)
  {
    forall j, l :: 0 <= j < l < |xs| ==> xs[j] >= xs[l]
  }

  /** Compacting a non-increasing list leaves it non-increasing. */
  lemma {:induction false} CompactKeepsOrder(xs: seq<real>, m: seq<bool>)
    requires |xs| == |m|
    requires NonIncreasing(xs)
    ensures NonIncreasing(Compact(xs, m))
  {
    if |xs| > 0 {
      CompactKeepsOrder(xs[1..], m[1..]);
      var rest := Compact(xs[1..], m[1..]);
      forall b | 0 <= b < |rest|
        ensures xs[0] >= rest[b]
      {
        CompactSource(xs[1..], m[1..], b);
      }
      var c := Compact(xs, m);
      if m[0] {
        assert c == [xs[0]] + rest;
        forall a, b | 0 <= a < b < |c|
          ensures c[a] >= c[b]
        {
          assert c[b] == rest[b - 1];
          assert c[0] == xs[0];
          if a > 0 {
            assert c[a] == rest[a - 1];
          }
        }
      } else {
        assert c == rest;
      }
    }
  }

  /** Entries before the first cleared bit are not moved by compaction. */
  lemma {:induction false} CompactPrefix<T>(xs: seq<T>, m: seq<bool>, r: nat)
    requires |xs| == |m| && r <= |xs|
    requires forall p :: 0 <= p < r ==> m[p]
    ensures Count(m) >= r
    ensures forall p :: 0 <= p < r ==> Compact(xs, m)[p] == xs[p]
  {
    if r > 0 {
      CompactPrefix(xs[1..], m[1..], r - 1);
    }
  }

  /** Compaction leaves a fully kept prefix in place and compacts the rest
      on its own. */
  lemma {:induction false} CompactSkip<T>(xs: seq<T>, m: seq<bool>, r: nat)
    requires |xs| == |m| && r <= |xs|
    requires forall p :: 0 <= p < r ==> m[p]
    ensures Compact(xs, m) == xs[..r] + Compact(xs[r..], m[r..])
  {
    if r > 0 {
      CompactSkip(xs[1..], m[1..], r - 1);
      assert xs[1..][r - 1..] == xs[r..] && m[1..][r - 1..] == m[r..];
      assert [xs[0]] + xs[1..][..r - 1] == xs[..r];
    }
  }

  /** Compaction commutes with applying a function to every entry. */
  lemma {:induction false} CompactMap<T, U>(xs: seq<T>, ys: seq<U>, m: seq<bool>, f: T -> U)
    requires |xs| == |m| && |ys| == |xs|
    requires forall k :: 0 <= k < |xs| ==> ys[k] == f(xs[k])
    ensures var c := Compact(xs, m); var d := Compact(ys, m);
      |d| == |c| && forall k :: 0 <= k < |c| ==> d[k] == f(c[k])
  {
    if |xs| > 0 {
      CompactMap(xs[1..], ys[1..], m[1..], f);
    }
  }

  /** A mask with every bit set keeps everything; one with no bit set keeps
      nothing. */
  lemma {:induction false} CountExtremes(m: seq<bool>)
    ensures (forall k :: 0 <= k < |m| ==> m[k]) ==> Count(m) == |m|
    ensures (forall k :: 0 <= k < |m| ==> !m[k]) ==> Count(m) == 0
    ensures Count(m) == 0 ==> forall k :: 0 <= k < |m| ==> !m[k]
  {
    if |m| > 0 {
      CountExtremes(m[1..]);
      assert forall k :: 1 <= k < |m| ==> m[1..][k - 1] == m[k];
    }
  }
}
