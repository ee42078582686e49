/** Cutting a sequence into consecutive slices of `k` elements, as Python's
    `[xs[i:i + k] for i in range(0, len(xs), k)]` does: used for the page
    chunks of the resume extractor and the job batches of the job matcher. */
module Slicing {
  /** The elements grouped `k` at a time, the last group taking the rest. */
  function Groups<T>(xs: seq<T>, k: nat): seq<seq<T>>
    requires k >= 1
    decreases |xs|
  {
    if xs == [] then []
    else if |xs| <= k then [xs]
    else [xs[..k]] + Groups(xs[k..], k)
  }

  function Flatten<T>(groups: seq<seq<T>>): seq<T> {
    if groups == [] then [] else groups[0] + Flatten(groups[1..])
  }

  function Min(a: int, b: int): int {
    if a <= b then a else b
  }

  /** The number of groups is the least `c` with `c*k >= n`, i.e. `ceil(n/k)`. */
  lemma {:induction false} GroupsCount<T>(xs: seq<T>, k: nat)
    requires k >= 1
    ensures (|Groups(xs, k)| - 1) * k < |xs| <= |Groups(xs, k)| * k
    decreases |xs|
  {
    if xs != [] && |xs| > k {
      GroupsCount(xs[k..], k);
      var c := |Groups(xs[k..], k)|;
      assert |Groups(xs, k)| == c + 1;
      assert (c + 1) * k == c * k + k;
    }
  }

  /** Group `i` is the slice from `i*k` up to `(i+1)*k` or the end;
      the number of groups is `ceil(n/k)` (`GroupsCount`). */
  lemma {:induction false} GroupsSlices<T>(xs: seq<T>, k: nat)
    requires k >= 1
    ensures (|Groups(xs, k)| - 1) * k < |xs| <= |Groups(xs, k)| * k
    ensures forall i :: 0 <= i < |Groups(xs, k)| ==>
      i * k < |xs| && Groups(xs, k)[i] == xs[i * k .. Min(i * k + k, |xs|)]
    decreases |xs|
  {
    GroupsCount(xs, k);
    var gs := Groups(xs, k);
    if xs != [] && |xs| > k {
      var rest := xs[k..];
      GroupsSlices(rest, k);
      var rs := Groups(rest, k);
      assert gs == [xs[..k]] + rs;
      forall i | 0 <= i < |gs|
        ensures i * k < |xs| && gs[i] == xs[i * k .. Min(i * k + k, |xs|)]
      {
        if i > 0 {
          GroupOfRest(xs, k, rs, i);
        }
      }
    }
  }

  lemma GroupOfRest<T>(xs: seq<T>, k: nat, rs: seq<seq<T>>, i: nat)
    requires k >= 1 && |xs| > k && 0 < i <= |rs|
    requires (i - 1) * k < |xs| - k
    requires rs[i - 1] == xs[k..][(i - 1) * k .. Min((i - 1) * k + k, |xs| - k)]
    ensures i * k < |xs| && rs[i - 1] == xs[i * k .. Min(i * k + k, |xs|)]
  {
    var lo := (i - 1) * k;
    assert lo + k == i * k;
    var hi := Min(lo + k, |xs| - k);
    assert xs[k..][lo..hi] == xs[lo + k .. hi + k];
  }

  /** Every group but the last holds exactly `k` elements, the last one 1 to
      `k`, and the groups put back together are the sequence. */
  lemma {:induction false} GroupsSizes<T>(xs: seq<T>, k: nat)
    requires k >= 1
    ensures forall i :: 0 <= i < |Groups(xs, k)| - 1 ==> |Groups(xs, k)[i]| == k
    ensures |Groups(xs, k)| > 0 ==> 1 <= |Groups(xs, k)[|Groups(xs, k)| - 1]| <= k
    ensures Flatten(Groups(xs, k)) == xs
    decreases |xs|
  {
    if xs != [] && |xs| > k {
      GroupsSizes(xs[k..], k);
      assert Groups(xs, k)[1..] == Groups(xs[k..], k);
      assert xs[..k] + xs[k..] == xs;
    } else if xs != [] {
      assert Flatten([xs]) == xs + Flatten([]);
    }
  }

  /** `n` is a multiple of `k`: a length made of whole groups. */
  predicate WholeChunks(n: nat, k: nat)
    requires k >= 1
  {
    n == 0 || (n >= k && WholeChunks(n - k, k))
  }

  /** Whole groups up to `a`, then a group `b` of 1 to `k` elements. */
  lemma {:induction false} GroupsSnoc<T>(a: seq<T>, b: seq<T>, k: nat)
    requires k >= 1 && WholeChunks(|a|, k) && 1 <= |b| <= k
    ensures Groups(a + b, k) == Groups(a, k) + [b]
    decreases |a|
  {
    if a == [] {
      assert a + b == b;
    } else {
      var ab := a + b;
      var tail := a[k..];
      assert ab[..k] == a[..k];
      assert ab[k..] == tail + b;
      GroupsSnoc(tail, b, k);
      assert Groups(ab, k) == [a[..k]] + Groups(tail + b, k);
      if |a| == k {
        assert tail == [];
        assert a[..k] == a;
        assert tail + b == b;
      }
    }
  }

  /** One more whole group. */
  lemma WholeChunksStep(n: nat, k: nat)
    requires k >= 1 && WholeChunks(n, k)
    ensures WholeChunks(n + k, k)
  {
  }

  /** Flattening distributes over concatenation. */
  lemma {:induction false} FlattenAppend<T>(a: seq<seq<T>>, b: seq<seq<T>>)
    ensures Flatten(a + b) == Flatten(a) + Flatten(b)
  {
    if a == [] {
      assert a + b == b;
    } else {
      assert (a + b)[0] == a[0];
      assert (a + b)[1..] == a[1..] + b;
      FlattenAppend(a[1..], b);
    }
  }
}
