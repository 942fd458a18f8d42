/** The index pairs visited by the nested pairing loops
    `for r in range(rows): for s in range(1, m + 1)` over a list of `n`
    acquisitions: reference index `r`, secondary index `r + s`. An attempt
    is feasible when `r + s` is a valid index. */
module PairGrid {
  import opened Text
  import opened Acquisitions

  datatype Attempt = Attempt(r: nat, s: nat)

  /** `range(1, npairs + 1)` has `max(npairs, 0)` skips. */
  function Depth(npairs: int): nat { if npairs < 0 then 0 else npairs }

  predicate Feasible(a: Attempt, n: nat) { a.r + a.s < n }

  /** The attempts `(r, 1) .. (r, m)` in loop order whose feasibility is `ok`. */
  function Row(r: nat, m: nat, n: nat, ok: bool): (row: seq<Attempt>)
    ensures forall k :: 0 <= k < |row| ==> row[k].r == r && 1 <= row[k].s <= m && Feasible(row[k], n) == ok
  {
    if m == 0 then []
    else Row(r, m - 1, n, ok) + (if Feasible(Attempt(r, m), n) == ok then [Attempt(r, m)] else [])
  }

  /** The attempts of references `0 .. rows - 1`, r-major then s ascending,
      whose feasibility is `ok`. */
  function Grid(rows: nat, m: nat, n: nat, ok: bool): (g: seq<Attempt>)
    ensures forall k :: 0 <= k < |g| ==> g[k].r < rows && 1 <= g[k].s <= m && Feasible(g[k], n) == ok
  {
    if rows == 0 then [] else Grid(rows - 1, m, n, ok) + Row(rows - 1, m, n, ok)
  }

  lemma {:induction false} RowMember(r: nat, m: nat, n: nat, ok: bool, a: Attempt)
    ensures a in Row(r, m, n, ok) <==> a.r == r && 1 <= a.s <= m && Feasible(a, n) == ok
  {
    if m > 0 { RowMember(r, m - 1, n, ok, a); }
  }

  /** An attempt is in the grid exactly when its reference is below `rows`,
      its skip is in `1..m` and its feasibility is `ok`. */
  lemma {:induction false} GridMember(rows: nat, m: nat, n: nat, ok: bool, a: Attempt)
    ensures a in Grid(rows, m, n, ok) <==> a.r < rows && 1 <= a.s <= m && Feasible(a, n) == ok
  {
    if rows > 0 {
      GridMember(rows - 1, m, n, ok, a);
      RowMember(rows - 1, m, n, ok, a);
      assert Grid(rows, m, n, ok) == Grid(rows - 1, m, n, ok) + Row(rows - 1, m, n, ok);
    }
  }

  // ---------------------------------------------------------------------
  // order

  /** r-major, then s ascending. */
  predicate Before(a: Attempt, b: Attempt)
  {
    a.r < b.r || (a.r == b.r && a.s < b.s)
  }

  predicate Increasing(xs: seq<Attempt>)
  {
    forall i, j :: 0 <= i < j < |xs| ==> Before(xs[i], xs[j])
  }

  lemma IncreasingConcat(xs: seq<Attempt>, ys: seq<Attempt>)
    requires Increasing(xs) && Increasing(ys)
    requires forall x, y :: x in xs && y in ys ==> Before(x, y)
    ensures Increasing(xs + ys)
  {
    var zs := xs + ys;
    forall i, j | 0 <= i < j < |zs|
      ensures Before(zs[i], zs[j])
    {
      if j < |xs| {
        assert zs[i] == xs[i] && zs[j] == xs[j];
      } else if i >= |xs| {
        assert zs[i] == ys[i - |xs|] && zs[j] == ys[j - |xs|];
      } else {
        assert zs[i] in xs && zs[j] in ys;
      }
    }
  }

  lemma {:induction false} RowIncreasing(r: nat, m: nat, n: nat, ok: bool)
    ensures Increasing(Row(r, m, n, ok))
  {
    if m > 0 {
      RowIncreasing(r, m - 1, n, ok);
      var last := if Feasible(Attempt(r, m), n) == ok then [Attempt(r, m)] else [];
      forall x, y | x in Row(r, m - 1, n, ok) && y in last
        ensures Before(x, y)
      {
        RowMember(r, m - 1, n, ok, x);
      }
      IncreasingConcat(Row(r, m - 1, n, ok), last);
    }
  }

  /** The grid lists its attempts strictly increasing, r-major then s
      ascending; in particular no attempt appears twice. */
  lemma {:induction false} GridIncreasing(rows: nat, m: nat, n: nat, ok: bool)
    ensures Increasing(Grid(rows, m, n, ok))
  {
    if rows > 0 {
      GridIncreasing(rows - 1, m, n, ok);
      RowIncreasing(rows - 1, m, n, ok);
      forall x, y | x in Grid(rows - 1, m, n, ok) && y in Row(rows - 1, m, n, ok)
        ensures Before(x, y)
      {
        GridMember(rows - 1, m, n, ok, x);
        RowMember(rows - 1, m, n, ok, y);
      }
      IncreasingConcat(Grid(rows - 1, m, n, ok), Row(rows - 1, m, n, ok));
    }
  }

  // ---------------------------------------------------------------------
  // counts

  /** Number of feasible skips of reference `r`: `min(m, n - 1 - r)`, or 0
      when `r` is the last index or beyond. */
  function RowFeasibleCount(r: nat, m: nat, n: nat): nat
  {
    if r + 1 >= n then 0 else Min(m, n - 1 - r)
  }

  /** Sum over `r < rows` of RowFeasibleCount(r, m, n). */
  function FeasibleCount(rows: nat, m: nat, n: nat): nat
  {
    if rows == 0 then 0 else FeasibleCount(rows - 1, m, n) + RowFeasibleCount(rows - 1, m, n)
  }

  lemma {:induction false} RowCount(r: nat, m: nat, n: nat)
    ensures |Row(r, m, n, true)| == RowFeasibleCount(r, m, n)
    ensures |Row(r, m, n, true)| + |Row(r, m, n, false)| == m
  {
    if m > 0 { RowCount(r, m - 1, n); }
  }

  /** The feasible attempts number the sum of `min(m, n - 1 - r)` over the
      references, and feasible plus infeasible attempts are `rows * m`. */
  lemma {:induction false} GridCount(rows: nat, m: nat, n: nat)
    ensures |Grid(rows, m, n, true)| == FeasibleCount(rows, m, n)
    ensures |Grid(rows, m, n, true)| + |Grid(rows, m, n, false)| == rows * m
  {
    if rows > 0 {
      GridCount(rows - 1, m, n);
      RowCount(rows - 1, m, n);
      var t, f := Grid(rows - 1, m, n, true), Grid(rows - 1, m, n, false);
      assert |Grid(rows, m, n, true)| == |t| + |Row(rows - 1, m, n, true)|;
      assert |Grid(rows, m, n, false)| == |f| + |Row(rows - 1, m, n, false)|;
      MulStep(rows, m);
    }
  }

  lemma MulStep(rows: nat, m: nat)
    requires rows > 0
    ensures (rows - 1) * m + m == rows * m
  {
  }

  lemma {:induction false} FeasibleCountFull(rows: nat, m: nat, n: nat)
    requires rows + m <= n
    ensures FeasibleCount(rows, m, n) == rows * m
  {
    if rows > 0 {
      FeasibleCountFull(rows - 1, m, n);
      MulStep(rows, m);
    }
  }

  /** When the deepest secondary of the last reference is still in range,
      no attempt is infeasible and there are exactly `rows * m` pairs. */
  lemma AllFeasible(rows: nat, m: nat, n: nat)
    requires rows + m <= n
    ensures Grid(rows, m, n, false) == []
    ensures |Grid(rows, m, n, true)| == rows * m
  {
    GridCount(rows, m, n);
    FeasibleCountFull(rows, m, n);
  }

  /** Five acquisitions paired two deep from every position: seven
      feasible attempts and three infeasible ones, the first of which is the
      second skip of the fourth reference. */
  lemma FiveAcquisitionsDepthTwo()
    ensures |Grid(5, 2, 5, true)| == 7 && |Grid(5, 2, 5, false)| == 3
    ensures Attempt(3, 1) in Grid(5, 2, 5, true) && Attempt(3, 2) in Grid(5, 2, 5, false)
  {
    GridCount(5, 2, 5);
    assert FeasibleCount(5, 2, 5) == 7;
    GridMember(5, 2, 5, true, Attempt(3, 1));
    GridMember(5, 2, 5, false, Attempt(3, 2));
  }

  // ---------------------------------------------------------------------
  // from attempts to jobs

  /** `pairs` are the jobs `(ids[r], ids[r + s])` of the feasible attempts
      `idx`, one for one and in the same order, named from the `lo:hi`
      slices of the two scene names. */
  ghost predicate Jobs(ids: seq<string>, idx: seq<Attempt>, pairs: seq<Pair>, lo: nat, hi: nat)
  {
    && |pairs| == |idx|
    && forall k :: 0 <= k < |idx| ==>
         idx[k].r + idx[k].s < |ids|
         && pairs[k] == MakePair(ids[idx[k].r], ids[idx[k].r + idx[k].s], lo, hi)
  }

  lemma JobAt(ids: seq<string>, idx: seq<Attempt>, pairs: seq<Pair>, lo: nat, hi: nat, k: nat)
    requires Jobs(ids, idx, pairs, lo, hi) && k < |idx|
    ensures idx[k].r + idx[k].s < |ids|
    ensures pairs[k] == MakePair(ids[idx[k].r], ids[idx[k].r + idx[k].s], lo, hi)
  {
  }

  lemma JobsConcat(ids: seq<string>, xs: seq<Attempt>, ys: seq<Attempt>, ps: seq<Pair>, qs: seq<Pair>, lo: nat, hi: nat)
    requires Jobs(ids, xs, ps, lo, hi) && Jobs(ids, ys, qs, lo, hi)
    ensures Jobs(ids, xs + ys, ps + qs, lo, hi)
  {
    var zs, rs := xs + ys, ps + qs;
    forall k | 0 <= k < |zs|
      ensures zs[k].r + zs[k].s < |ids| && rs[k] == MakePair(ids[zs[k].r], ids[zs[k].r + zs[k].s], lo, hi)
    {
      if k < |xs| {
        assert zs[k] == xs[k] && rs[k] == ps[k];
      } else {
        assert zs[k] == ys[k - |xs|] && rs[k] == qs[k - |xs|];
      }
    }
  }
}
