/**
 * Index bookkeeping for the bird-removal sweeps of a tick.
 *
 * Both sweeps iterate `for bird in birds:` and pop the current bird (and the
 * entries at the same position of the parallel lists) when it is hit. A Python
 * list iterator keeps a position, so after a pop the element that slid into the
 * current position is never examined in that pass. `Kept(hits)` gives the
 * positions that survive such a pass, and `Select` applies the same choice to
 * every parallel list.
 */
module Sweeps {

  predicate Distinct<T(==)>(s: seq<T>) {
    forall i, j :: 0 <= i < j < |s| ==> s[i] != s[j]
  }

  predicate Increasing(idx: seq<nat>) {
    forall i, j :: 0 <= i < j < |idx| ==> idx[i] < idx[j]
  }

  predicate Below(idx: seq<nat>, n: nat) {
    forall k :: 0 <= k < |idx| ==> idx[k] < n
  }

  /** The elements of `s` at the positions `idx`, in that order. */
  function Select<T>(s: seq<T>, idx: seq<nat>): seq<T>
    requires Below(idx, |s|)
  {
    seq(|idx|, k requires 0 <= k < |idx| => s[idx[k]])
  }

  /** The positions 0, 1, ..., n - 1. */
  function AllIndices(n: nat): (r: seq<nat>)
    ensures |r| == n && Increasing(r) && Below(r, n)
    ensures forall k :: 0 <= k < n ==> r[k] == k
  {
    seq(n, k requires 0 <= k < n => k)
  }

  /**
   * Positions of `hits` that are still present after a removal pass that is
   * about to examine position `i`: an unhit position stays; a hit position is
   * popped and the position after it is passed over (kept, unexamined).
   */
  function KeptFrom(hits: seq<bool>, i: nat): (r: seq<nat>)
    decreases |hits| - i
    ensures Increasing(r)
    ensures forall k :: 0 <= k < |r| ==> i <= r[k] < |hits|
    ensures i <= |hits| ==> |r| <= |hits| - i
  {
    if i >= |hits| then []
    else if !hits[i] then [i] + KeptFrom(hits, i + 1)
    else if i + 1 < |hits| then [i + 1] + KeptFrom(hits, i + 2)
    else []
  }

  /** Positions that survive one full removal pass over a list whose hit flags are `hits`. */
  function Kept(hits: seq<bool>): (r: seq<nat>)
    ensures Increasing(r) && Below(r, |hits|) && |r| <= |hits|
  {
    KeptFrom(hits, 0)
  }

  lemma {:induction false} KeptFromCharacterised(hits: seq<bool>, i: nat, k: nat)
    requires i <= k < |hits|
    ensures k in KeptFrom(hits, i) <==> !hits[k] || (k > i && k - 1 !in KeptFrom(hits, i))
    decreases |hits| - i
  {
    var r := KeptFrom(hits, i);
    if !hits[i] {
      if k > i {
        KeptFromCharacterised(hits, i + 1, k);
        assert k in r <==> k in KeptFrom(hits, i + 1);
        if k > i + 1 {
          assert k - 1 in r <==> k - 1 in KeptFrom(hits, i + 1);
        } else {
          assert k - 1 in r;
        }
      }
    } else if i + 1 < |hits| {
      if k == i {
        assert k !in r;
      } else if k == i + 1 {
        assert k in r;
      } else {
        KeptFromCharacterised(hits, i + 2, k);
        assert k in r <==> k in KeptFrom(hits, i + 2);
        if k > i + 2 {
          assert k - 1 in r <==> k - 1 in KeptFrom(hits, i + 2);
        } else {
          assert k - 1 in r;
        }
      }
    }
  }

  /**
   * A position survives the pass exactly when it is not hit, or when it is
   * passed over because the position before it was popped.
   */
  lemma KeptCharacterised(hits: seq<bool>, k: nat)
    requires k < |hits|
    ensures k in Kept(hits) <==> !hits[k] || (k > 0 && k - 1 !in Kept(hits))
  {
    KeptFromCharacterised(hits, 0, k);
  }

  /** A bird that is not hit is never removed. */
  lemma UnhitIsKept(hits: seq<bool>, k: nat)
    requires k < |hits| && !hits[k]
    ensures k in Kept(hits)
  {
    KeptCharacterised(hits, k);
  }

  /** The bird right after a removed bird survives the pass, hit or not. */
  lemma NeighbourOfRemovedIsKept(hits: seq<bool>, k: nat)
    requires k + 1 < |hits| && k !in Kept(hits)
    ensures hits[k] && k + 1 in Kept(hits)
  {
    KeptCharacterised(hits, k);
    KeptCharacterised(hits, k + 1);
  }

  /**
   * Two adjacent hit birds, the first of which the pass examines (it is the
   * first bird, or the bird before it stayed): the first is removed and the
   * second is passed over and stays.
   */
  lemma AdjacentHitsKeepSecond(hits: seq<bool>, k: nat)
    requires k + 1 < |hits| && hits[k] && hits[k + 1]
    requires k == 0 || k - 1 in Kept(hits)
    ensures k !in Kept(hits) && k + 1 in Kept(hits)
  {
    KeptCharacterised(hits, k);
    NeighbourOfRemovedIsKept(hits, k);
  }

  /**
   * In a run of hit birds the pass removes every other one, starting with the
   * first of the run.
   */
  lemma RunsOfHitsAlternate()
    ensures Kept([true, true]) == [1]
    ensures Kept([true, true, true]) == [1]
    ensures Kept([false, true, true, true]) == [0, 2]
  {
  }

  /**
   * When no two adjacent birds are hit, the pass removes exactly the hit ones:
   * the skip only matters for runs of consecutive hits.
   */
  lemma {:induction false} KeptExactWithoutAdjacentHits(hits: seq<bool>, k: nat)
    requires forall j :: 0 < j < |hits| ==> !(hits[j - 1] && hits[j])
    requires k < |hits|
    ensures k in Kept(hits) <==> !hits[k]
  {
    KeptCharacterised(hits, k);
    if k > 0 {
      KeptExactWithoutAdjacentHits(hits, k - 1);
    }
  }

  lemma SelectSelect<T>(s: seq<T>, a: seq<nat>, b: seq<nat>)
    requires Below(a, |s|) && Below(b, |a|)
    ensures Below(Select(a, b), |s|)
    ensures Select(Select(s, a), b) == Select(s, Select(a, b))
  {
  }

  lemma IncreasingSelect(a: seq<nat>, b: seq<nat>)
    requires Below(b, |a|) && Increasing(a) && Increasing(b)
    ensures Increasing(Select(a, b))
  {
  }

  lemma DistinctSelect<T>(s: seq<T>, idx: seq<nat>)
    requires Below(idx, |s|) && Distinct(s) && Increasing(idx)
    ensures Distinct(Select(s, idx))
  {
  }

  /** In a list without duplicates, an element is selected exactly when its position is. */
  lemma InSelect<T>(a: seq<T>, b: seq<nat>, m: nat)
    requires Below(b, |a|) && Distinct(a) && m < |a|
    ensures a[m] in Select(a, b) <==> m in b
  {
    if a[m] in Select(a, b) {
      var j :| 0 <= j < |b| && Select(a, b)[j] == a[m];
      assert a[b[j]] == a[m];
      assert b[j] == m;
    }
    if m in b {
      var j :| 0 <= j < |b| && b[j] == m;
      assert Select(a, b)[j] == a[m];
    }
  }

  /** Selecting never adds an element. */
  lemma SelectedAreMembers<T>(s: seq<T>, idx: seq<nat>, y: T)
    requires Below(idx, |s|) && y in Select(s, idx)
    ensures y in s
  {
    var j :| 0 <= j < |idx| && Select(s, idx)[j] == y;
    assert s[idx[j]] == y;
  }

  /** The positions lo, lo + 1, ..., hi - 1. */
  function Range(lo: nat, hi: nat): (r: seq<nat>)
    requires lo <= hi
    ensures |r| == hi - lo && forall k :: 0 <= k < |r| ==> r[k] == lo + k
  {
    seq(hi - lo, k requires 0 <= k < hi - lo => lo + k)
  }

  /** Popping position i of a selection is selecting without that position. */
  lemma SelectRemove<T>(s: seq<T>, cur: seq<nat>, i: nat)
    requires Below(cur, |s|) && i < |cur|
    ensures Select(s, cur)[..i] + Select(s, cur)[i + 1..] == Select(s, cur[..i] + cur[i + 1..])
  {
  }

  /** One step of a sweep at position o, as `KeptFrom` records it. */
  lemma KeptFromStep(hits: seq<bool>, done: seq<nat>, o: nat)
    requires o < |hits|
    ensures !hits[o] ==> done + KeptFrom(hits, o) == (done + [o]) + KeptFrom(hits, o + 1)
    ensures hits[o] && o + 1 < |hits| ==> done + KeptFrom(hits, o) == (done + [o + 1]) + KeptFrom(hits, o + 2)
    ensures hits[o] && o + 1 >= |hits| ==> done + KeptFrom(hits, o) == done + KeptFrom(hits, |hits|)
  {
    if !hits[o] {
      assert KeptFrom(hits, o) == [o] + KeptFrom(hits, o + 1);
    } else if o + 1 < |hits| {
      assert KeptFrom(hits, o) == [o + 1] + KeptFrom(hits, o + 2);
    }
  }

  /** The same step on the original positions still in the list: `done`, then o, ..., n - 1. */
  lemma RangeStep(done: seq<nat>, o: nat, n: nat)
    requires o < n
    ensures (done + Range(o, n))[|done|] == o
    ensures done + Range(o, n) == (done + [o]) + Range(o + 1, n)
    ensures var cur := done + Range(o, n); cur[..|done|] + cur[|done| + 1..] == done + Range(o + 1, n)
    ensures o + 1 < n ==> done + Range(o + 1, n) == (done + [o + 1]) + Range(o + 2, n)
  {
    var cur := done + Range(o, n);
    assert cur[..|done|] + cur[|done| + 1..] == done + Range(o + 1, n);
  }

  /**
   * A sweep over `xs` with hit flags `hits`, about to examine position `i` of
   * the current list `cur`: the original positions still present are `done`
   * (examined and kept, or passed over) followed by o, o + 1, ..., |xs| - 1.
   * After a pop of the last element the iterator stands one past the end.
   */
  ghost predicate Sweeping<T>(xs: seq<T>, hits: seq<bool>, cur: seq<T>, i: nat, done: seq<nat>, o: nat) {
    && |hits| == |xs| && o <= |xs|
    && done + KeptFrom(hits, o) == Kept(hits)
    && (forall k :: 0 <= k < |done| ==> done[k] < o)
    && (i == |done| || (o == |xs| && i == |done| + 1))
    && Below(done + Range(o, |xs|), |xs|)
    && cur == Select(xs, done + Range(o, |xs|))
  }

  lemma SweepStarts<T>(xs: seq<T>, hits: seq<bool>)
    requires |hits| == |xs|
    ensures Sweeping(xs, hits, xs, 0, [], 0)
  {
    assert [] + Range(0, |xs|) == AllIndices(|xs|);
  }

  /** The element examined is the original xs[o]; whether o survives the pass is decided by its flag. */
  lemma SweepExamines<T>(xs: seq<T>, hits: seq<bool>, cur: seq<T>, i: nat, done: seq<nat>, o: nat)
    requires Sweeping(xs, hits, cur, i, done, o) && i < |cur|
    ensures o < |xs| && i == |done| && cur[i] == xs[o]
    ensures o in Kept(hits) <==> !hits[o]
    ensures hits[o] && o + 1 < |xs| ==> o + 1 in Kept(hits)
  {
    RangeStep(done, o, |xs|);
    KeptFromStep(hits, done, o);
  }

  lemma SweepKeeps<T>(xs: seq<T>, hits: seq<bool>, cur: seq<T>, i: nat, done: seq<nat>, o: nat)
    requires Sweeping(xs, hits, cur, i, done, o) && i < |cur| && o < |xs| && !hits[o]
    ensures Sweeping(xs, hits, cur, i + 1, done + [o], o + 1)
  {
    RangeStep(done, o, |xs|);
    KeptFromStep(hits, done, o);
  }

  lemma SweepPops<T>(xs: seq<T>, hits: seq<bool>, cur: seq<T>, i: nat, done: seq<nat>, o: nat)
    requires Sweeping(xs, hits, cur, i, done, o) && i < |cur| && o < |xs| && hits[o]
    ensures o + 1 < |xs| ==> Sweeping(xs, hits, cur[..i] + cur[i + 1..], i + 1, done + [o + 1], o + 2)
    ensures o + 1 >= |xs| ==> Sweeping(xs, hits, cur[..i] + cur[i + 1..], i + 1, done, |xs|)
  {
    RangeStep(done, o, |xs|);
    KeptFromStep(hits, done, o);
    SelectRemove(xs, done + Range(o, |xs|), i);
  }

  lemma SweepEnds<T>(xs: seq<T>, hits: seq<bool>, cur: seq<T>, i: nat, done: seq<nat>, o: nat)
    requires Sweeping(xs, hits, cur, i, done, o) && i >= |cur|
    ensures o == |xs| && done == Kept(hits) && cur == Select(xs, Kept(hits))
  {
    assert Range(o, |xs|) == [];
  }

  /** Python's `list.remove(x)`: drops the first element equal to `x`. */
  function RemoveFirst<T(==)>(s: seq<T>, x: T): seq<T> {
    if s == [] then []
    else if s[0] == x then s[1..]
    else [s[0]] + RemoveFirst(s[1..], x)
  }

  /** `s` without the elements that belong to `xs`, order kept. */
  function Without<T(==)>(s: seq<T>, xs: set<T>): (r: seq<T>)
    ensures forall k :: 0 <= k < |r| ==> r[k] in s && r[k] !in xs
    ensures forall k :: 0 <= k < |s| && s[k] !in xs ==> s[k] in r
  {
    if s == [] then []
    else if s[0] in xs then Without(s[1..], xs)
    else [s[0]] + Without(s[1..], xs)
  }

  /** On a list without duplicates, `remove(x)` removes every copy of `x`. */
  lemma {:induction false} RemoveFirstOfDistinct<T>(s: seq<T>, xs: set<T>, x: T)
    requires Distinct(s)
    ensures RemoveFirst(Without(s, xs), x) == Without(s, xs + {x})
  {
    if s != [] {
      assert Distinct(s[1..]);
      if s[0] in xs {
        RemoveFirstOfDistinct(s[1..], xs, x);
      } else if s[0] == x {
        assert x !in s[1..];
        WithoutAbsent(s[1..], xs, x);
      } else {
        RemoveFirstOfDistinct(s[1..], xs, x);
      }
    }
  }

  lemma {:induction false} WithoutAbsent<T>(s: seq<T>, xs: set<T>, x: T)
    requires x !in s
    ensures Without(s, xs) == Without(s, xs + {x})
  {
    if s != [] {
      WithoutAbsent(s[1..], xs, x);
    }
  }

  lemma {:induction false} WithoutNothing<T>(s: seq<T>)
    ensures Without(s, {}) == s
  {
    if s != [] {
      WithoutNothing(s[1..]);
    }
  }

  lemma {:induction false} WithoutAppend<T>(s: seq<T>, t: seq<T>, xs: set<T>)
    ensures Without(s + t, xs) == Without(s, xs) + Without(t, xs)
  {
    if s == [] {
      assert s + t == t;
    } else {
      assert (s + t)[1..] == s[1..] + t;
      WithoutAppend(s[1..], t, xs);
    }
  }

  lemma {:induction false} DistinctWithout<T>(s: seq<T>, xs: set<T>)
    requires Distinct(s)
    ensures Distinct(Without(s, xs))
  {
    if s != [] {
      assert Distinct(s[1..]);
      DistinctWithout(s[1..], xs);
      assert s[0] !in s[1..];
    }
  }
}
