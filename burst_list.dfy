/** scripts/getBurstList.py: keep the acquisitions covering at least 95% of
    the reference burst, sort their scene names, and pair each of the first
    `len - NPAIRS` names with its next NPAIRS neighbours. */
module BurstList {
  import opened Text
  import opened Acquisitions
  import opened PairGrid
  import opened JobMatrix

  const MinOverlap: real := 0.95
  /** Scene names carry their start date at `[14:22]` in this script. */
  const DateLo: nat := 14
  const DateHi: nat := 22

  /** What the script reports: the sorted names (`BURST_IDS`), the jobs, the
      matrix string and the number of interferograms. */
  datatype Listing = Listing(burstIds: seq<string>, pairs: seq<Pair>, matrix: string, count: nat)

  // ---------------------------------------------------------------------
  // burstIDs.sort()

  /** `list.sort()` on strings: the array ends up ascending in Python's
      string order and holds the same names. */
  method SortNames(a: array<string>)
    modifies a
    ensures LexSorted(a[..])
    ensures multiset(a[..]) == old(multiset(a[..]))
  {
    for i := 0 to a.Length
      invariant LexSorted(a[..i])
      invariant multiset(a[..]) == old(multiset(a[..]))
    {
      SinkName(a, i);
    }
    assert a[..a.Length] == a[..];
  }

  /** One insertion step: moves `a[i]` left past the names greater than it. */
  method SinkName(a: array<string>, i: nat)
    requires i < a.Length && LexSorted(a[..i])
    modifies a
    ensures LexSorted(a[..i + 1])
    ensures multiset(a[..]) == old(multiset(a[..]))
    ensures a[i + 1..] == old(a[i + 1..])
    ensures multiset(a[..i + 1]) == old(multiset(a[..i + 1]))
  {
    ghost var before := a[..];
    MoveDownName(a, i);
    PrefixMultiset(a[..], before, i + 1);
  }

  /** The loop of the insertion step: `a[i]` travels down by adjacent swaps;
      the positions after `i` are not touched. */
  method MoveDownName(a: array<string>, i: nat)
    requires i < a.Length && LexSorted(a[..i])
    modifies a
    ensures LexSorted(a[..i + 1])
    ensures multiset(a[..]) == old(multiset(a[..]))
    ensures forall k :: i < k < a.Length ==> a[k] == old(a[k])
  {
    var j := i;
    while j > 0 && !LexLe(a[j - 1], a[j])
      invariant 0 <= j <= i
      invariant multiset(a[..]) == old(multiset(a[..]))
      invariant forall k :: i < k < a.Length ==> a[k] == old(a[k])
      invariant forall k, l :: 0 <= k < l <= i && k != j && l != j ==> LexLe(a[k], a[l])
      invariant forall l :: j < l <= i ==> LexLe(a[j], a[l])
    {
      LexLeTotal(a[j - 1], a[j]);
      SwapNames(a, j - 1, j);
      j := j - 1;
    }
    if j > 0 {
      forall k | 0 <= k < j
        ensures LexLe(a[k], a[j])
      {
        if k < j - 1 {
          LexLeTrans(a[k], a[j - 1], a[j]);
        }
      }
    }
  }

  method SwapNames(a: array<string>, i: nat, j: nat)
    requires i < j < a.Length
    modifies a
    ensures a[..] == old(a[..])[i := old(a[j])][j := old(a[i])]
    ensures multiset(a[..]) == old(multiset(a[..]))
    ensures forall k :: 0 <= k < a.Length && k != i && k != j ==> a[k] == old(a[k])
  {
    a[i], a[j] := a[j], a[i];
  }

  // ---------------------------------------------------------------------
  // pairing

  /** `range(len(burstIDs) - NPAIRS)` has this many references. */
  function References(n: nat, npairs: int): nat
  {
    if n - npairs > 0 then n - npairs else 0
  }

  /** The nested loops of lines 51-56. Every index they read is in range, so
      no attempt fails: the jobs are those of the whole grid of references
      `0 .. len - NPAIRS - 1` and skips `1 .. NPAIRS`, in loop order. */
  method ListPairs(ids: seq<string>, npairs: int) returns (pairs: seq<Pair>)
    ensures Jobs(ids, Grid(References(|ids|, npairs), Depth(npairs), |ids|, true), pairs, DateLo, DateHi)
  {
    var rows, m := References(|ids|, npairs), Depth(npairs);
    pairs := [];
    for r := 0 to rows
      invariant Jobs(ids, Grid(r, m, |ids|, true), pairs, DateLo, DateHi)
    {
      var rowPairs := ListRow(ids, r, npairs);
      JobsConcat(ids, Grid(r, m, |ids|, true), Row(r, m, |ids|, true), pairs, rowPairs, DateLo, DateHi);
      pairs := pairs + rowPairs;
    }
  }

  /** The inner loop for reference `r`: all of its skips are in range. */
  method ListRow(ids: seq<string>, r: nat, npairs: int) returns (pairs: seq<Pair>)
    requires r < References(|ids|, npairs)
    ensures Jobs(ids, Row(r, Depth(npairs), |ids|, true), pairs, DateLo, DateHi)
  {
    pairs := [];
    var s := 1;
    while s <= npairs
      invariant 1 <= s <= Depth(npairs) + 1
      invariant Jobs(ids, Row(r, s - 1, |ids|, true), pairs, DateLo, DateHi)
    {
      var ref := ids[r];
      var sec := ids[r + s];
      assert Row(r, s, |ids|, true) == Row(r, s - 1, |ids|, true) + [Attempt(r, s)];
      pairs := pairs + [MakePair(ref, sec, DateLo, DateHi)];
      s := s + 1;
    }
    assert s - 1 == Depth(npairs);
  }

  /** Lines 40-58 with the search results given: filter, sort the names,
      pair, wrap. */
  method GetBurstList(acqs: seq<Acquisition>, npairs: int) returns (out: Listing)
    ensures LexSorted(out.burstIds)
    ensures multiset(out.burstIds) == multiset(Names(FilterByOverlap(acqs, MinOverlap)))
    ensures Jobs(out.burstIds, Grid(References(|out.burstIds|, npairs), Depth(npairs), |out.burstIds|, true),
                 out.pairs, DateLo, DateHi)
    ensures out.matrix == MatrixJson(out.pairs)
    ensures out.count == |out.pairs|
  {
    var names := Names(FilterByOverlap(acqs, MinOverlap));
    var a := new string[|names|](k requires 0 <= k < |names| => names[k]);
    assert a[..] == names;
    SortNames(a);
    var ids := a[..];
    var pairs := ListPairs(ids, npairs);
    out := Listing(ids, pairs, MatrixJson(pairs), |pairs|);
  }

  // ---------------------------------------------------------------------
  // properties

  /** No attempt of the grid is infeasible: the last reference's deepest
      secondary is the last name. */
  lemma NothingSkipped(n: nat, npairs: int)
    ensures Grid(References(n, npairs), Depth(npairs), n, false) == []
  {
    var rows, m := References(n, npairs), Depth(npairs);
    if npairs <= 0 {
      GridCount(rows, m, n);
    } else if n <= npairs {
      assert rows == 0;
    } else {
      AllFeasible(rows, m, n);
    }
  }

  /** The script makes `NPAIRS * (len - NPAIRS)` interferograms when there
      are more names than NPAIRS, and none otherwise. */
  lemma ListCount(ids: seq<string>, npairs: int, pairs: seq<Pair>)
    requires Jobs(ids, Grid(References(|ids|, npairs), Depth(npairs), |ids|, true), pairs, DateLo, DateHi)
    ensures |pairs| == if npairs >= 1 && |ids| > npairs then npairs * (|ids| - npairs) else 0
  {
    var rows, m := References(|ids|, npairs), Depth(npairs);
    if npairs <= 0 {
      GridCount(rows, m, |ids|);
    } else if |ids| <= npairs {
      assert rows == 0;
    } else {
      AllFeasible(rows, m, |ids|);
    }
  }

  /** On the sorted names every job's reference comes no later than its
      secondary in string order. */
  lemma ListJobsOrdered(ids: seq<string>, npairs: int, pairs: seq<Pair>, k: nat)
    requires LexSorted(ids)
    requires Jobs(ids, Grid(References(|ids|, npairs), Depth(npairs), |ids|, true), pairs, DateLo, DateHi)
    requires k < |pairs|
    ensures LexLe(pairs[k].reference, pairs[k].secondary)
  {
    var g := Grid(References(|ids|, npairs), Depth(npairs), |ids|, true);
    JobAt(ids, g, pairs, DateLo, DateHi, k);
    var i, j := g[k].r, g[k].r + g[k].s;
    assert LexLe(ids[i], ids[j]);
  }

  /** Which jobs there are: reference `r` is paired with `r + s` exactly
      when `r < len - NPAIRS` and `1 <= s <= NPAIRS`. */
  lemma ListAttempts(n: nat, npairs: int, a: Attempt)
    ensures a in Grid(References(n, npairs), Depth(npairs), n, true)
        <==> a.r + npairs < n && 1 <= a.s <= npairs
  {
    GridMember(References(n, npairs), Depth(npairs), n, true, a);
  }
}
