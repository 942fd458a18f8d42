/** scripts/getBurstPairs.py: keep the acquisitions covering at least 80% of
    the reference burst, order them by start time, and build the
    interferogram jobs either densely (each reference of the chosen year
    with its next NPairs neighbours) or at a fixed offset of DT years. */
module BurstPairs {
  import opened Text
  import opened Acquisitions
  import opened PairGrid
  import opened JobMatrix

  const MinOverlap: real := 0.80
  const SecondsPerDay: int := 86400
  /** Scene names carry their start date at `[17:25]`. */
  const DateLo: nat := 17
  const DateHi: nat := 25

  /** The workflow inputs: `Year`, `NPairs` and the optional `OFFSETS_DT`
      (absent, or not an integer, is `None`). */
  datatype Config = Config(year: int, npairs: int, offsetYears: Option<int>)

  datatype Failure =
    | NoAcquisitionInYear   // `gf.index[...][-1]` on an empty selection (line 83)
    | RefNameUnbound        // `refname` read before any assignment (line 71)

  datatype Result<T> = Ok(value: T) | Err(error: Failure)

  /** What the script reports: the scene names in processing order
      (`BURST_IDS`), the jobs, the skipped dense attempts, the matrix string
      and the number of interferograms. */
  datatype Outcome = Outcome(
    burstIds: seq<string>, pairs: seq<Pair>, skipped: seq<Attempt>,
    matrix: string, count: nat)

  // ---------------------------------------------------------------------
  // chronological order

  /** `gf.sort_values(by='datetime')`: an ascending permutation (no promise
      about the order of equal start times). */
  method SortByTime(acqs: seq<Acquisition>) returns (sorted: seq<Acquisition>)
    ensures SortedByTime(sorted)
    ensures multiset(sorted) == multiset(acqs)
  {
    var a := new Acquisition[|acqs|](k requires 0 <= k < |acqs| => acqs[k]);
    assert a[..] == acqs;
    for i := 0 to a.Length
      invariant SortedByTime(a[..i])
      invariant multiset(a[..]) == multiset(acqs)
    {
      SinkByTime(a, i);
    }
    assert a[..a.Length] == a[..];
    sorted := a[..];
  }

  /** One insertion step: moves `a[i]` left past the later start times, so
      that `a[..i + 1]` is ascending when `a[..i]` was. */
  method SinkByTime(a: array<Acquisition>, i: nat)
    requires i < a.Length && SortedByTime(a[..i])
    modifies a
    ensures SortedByTime(a[..i + 1])
    ensures multiset(a[..]) == old(multiset(a[..]))
    ensures a[i + 1..] == old(a[i + 1..])
    ensures multiset(a[..i + 1]) == old(multiset(a[..i + 1]))
  {
    ghost var before := a[..];
    MoveDownByTime(a, i);
    PrefixMultiset(a[..], before, i + 1);
  }

  /** The loop of the insertion step: `a[i]` travels down by adjacent swaps;
      the positions after `i` are not touched. */
  method MoveDownByTime(a: array<Acquisition>, i: nat)
    requires i < a.Length && SortedByTime(a[..i])
    modifies a
    ensures SortedByTime(a[..i + 1])
    ensures multiset(a[..]) == old(multiset(a[..]))
    ensures forall k :: i < k < a.Length ==> a[k] == old(a[k])
  {
    var j := i;
    while j > 0 && a[j - 1].startTime > a[j].startTime
      invariant 0 <= j <= i
      invariant multiset(a[..]) == old(multiset(a[..]))
      invariant forall k :: i < k < a.Length ==> a[k] == old(a[k])
      invariant forall k, l :: 0 <= k < l <= i && k != j && l != j ==> a[k].startTime <= a[l].startTime
      invariant forall l :: j < l <= i ==> a[j].startTime <= a[l].startTime
    {
      SwapAcquisitions(a, j - 1, j);
      j := j - 1;
    }
  }

  method SwapAcquisitions(a: array<Acquisition>, i: nat, j: nat)
    requires i < j < a.Length
    modifies a
    ensures a[..] == old(a[..])[i := old(a[j])][j := old(a[i])]
    ensures multiset(a[..]) == old(multiset(a[..]))
    ensures forall k :: 0 <= k < a.Length && k != i && k != j ==> a[k] == old(a[k])
  {
    a[i], a[j] := a[j], a[i];
  }

  // ---------------------------------------------------------------------
  // dense pairs

  /** `gf.index[gf.datetime.dt.year == START][-1]`: the last position whose
      start time falls in `year`, if any. */
  function LastIndexOfYear(acqs: seq<Acquisition>, yearOf: int -> int, year: int): (r: Option<nat>)
    ensures r.Some? ==> r.value < |acqs| && yearOf(acqs[r.value].startTime) == year
    ensures r.Some? ==> forall j :: r.value < j < |acqs| ==> yearOf(acqs[j].startTime) != year
    ensures r.None? ==> forall j :: 0 <= j < |acqs| ==> yearOf(acqs[j].startTime) != year
  {
    if |acqs| == 0 then None
    else if yearOf(acqs[|acqs| - 1].startTime) == year then Some(|acqs| - 1)
    else LastIndexOfYear(acqs[..|acqs| - 1], yearOf, year)
  }

  /** The nested loops of lines 84-92: the jobs are those of the feasible
      attempts of references `0 .. last` with skips `1 .. NPAIRS`, in loop
      order. An attempt whose secondary index is past the end raises
      IndexError inside the `try`; it is reported (here collected in
      `skipped`) and the loops go on. */
  method DensePairs(ids: seq<string>, last: nat, npairs: int) returns (pairs: seq<Pair>, skipped: seq<Attempt>)
    requires last < |ids|
    ensures Jobs(ids, Grid(last + 1, Depth(npairs), |ids|, true), pairs, DateLo, DateHi)
    ensures skipped == Grid(last + 1, Depth(npairs), |ids|, false)
  {
    var m := Depth(npairs);
    pairs, skipped := [], [];
    for r := 0 to last + 1
      invariant skipped == Grid(r, m, |ids|, false)
      invariant Jobs(ids, Grid(r, m, |ids|, true), pairs, DateLo, DateHi)
    {
      var rowPairs, rowSkipped := DenseRow(ids, r, m);
      JobsConcat(ids, Grid(r, m, |ids|, true), Row(r, m, |ids|, true), pairs, rowPairs, DateLo, DateHi);
      pairs := pairs + rowPairs;
      skipped := skipped + rowSkipped;
    }
  }

  /** The inner loop `for s in range(1, NPAIRS + 1)` for reference `r`. */
  method DenseRow(ids: seq<string>, r: nat, m: nat) returns (pairs: seq<Pair>, skipped: seq<Attempt>)
    requires r < |ids|
    ensures Jobs(ids, Row(r, m, |ids|, true), pairs, DateLo, DateHi)
    ensures skipped == Row(r, m, |ids|, false)
  {
    pairs, skipped := [], [];
    var s := 1;
    while s <= m
      invariant 1 <= s <= m + 1
      invariant skipped == Row(r, s - 1, |ids|, false)
      invariant Jobs(ids, Row(r, s - 1, |ids|, true), pairs, DateLo, DateHi)
    {
      var ref := ids[r];
      if r + s < |ids| {
        var sec := ids[r + s];
        assert Row(r, s, |ids|, true) == Row(r, s - 1, |ids|, true) + [Attempt(r, s)];
        pairs := pairs + [MakePair(ref, sec, DateLo, DateHi)];
      } else {
        assert Row(r, s, |ids|, true) == Row(r, s - 1, |ids|, true);
        skipped := skipped + [Attempt(r, s)];
      }
      s := s + 1;
    }
  }

  // ---------------------------------------------------------------------
  // offset pairs

  function Dist(a: int, b: int): nat { if a >= b then a - b else b - a }

  /** `gf.index.get_indexer([target], method='nearest')[0]`: a position whose
      start time is nearest to `target`; of equally near positions pandas
      prefers the larger index value, which on the chronological index is the
      later position. */
  function Nearest(acqs: seq<Acquisition>, target: int): (k: nat)
    requires |acqs| > 0
    ensures k < |acqs|
    ensures forall j :: 0 <= j < |acqs| ==> Dist(acqs[k].startTime, target) <= Dist(acqs[j].startTime, target)
    ensures forall j :: k < j < |acqs| ==> Dist(acqs[k].startTime, target) < Dist(acqs[j].startTime, target)
  {
    if |acqs| == 1 then 0
    else
      var k := Nearest(acqs[..|acqs| - 1], target);
      if Dist(acqs[|acqs| - 1].startTime, target) <= Dist(acqs[k].startTime, target) then |acqs| - 1 else k
  }

  /** Two acquisitions equally near the target: the later one is chosen. */
  lemma NearestPrefersLater(acqs: seq<Acquisition>)
    requires |acqs| == 4
    requires acqs[0].startTime == 0 && acqs[1].startTime == 300 * SecondsPerDay
    requires acqs[2].startTime == 430 * SecondsPerDay && acqs[3].startTime == 800 * SecondsPerDay
    ensures Nearest(acqs, 365 * SecondsPerDay) == 2
  {
    var t := 365 * SecondsPerDay;
    assert Dist(acqs[1].startTime, t) == Dist(acqs[2].startTime, t) == 65 * SecondsPerDay;
  }

  /** Line 70: less than `365 * DT` days separate position `i` from the last
      acquisition. */
  predicate TooRecent(acqs: seq<Acquisition>, i: nat, dt: int)
    requires i < |acqs|
  {
    acqs[|acqs| - 1].startTime - acqs[i].startTime < 365 * dt * SecondsPerDay
  }

  /** Number of references of the offset strategy: the position of the first
      acquisition that is too recent, or all of them if none is. */
  function ReferenceCount(acqs: seq<Acquisition>, dt: int, from: nat): (c: nat)
    requires from <= |acqs|
    ensures from <= c <= |acqs|
    ensures forall j :: from <= j < c ==> !TooRecent(acqs, j, dt)
    ensures c < |acqs| ==> TooRecent(acqs, c, dt)
    decreases |acqs| - from
  {
    if from == |acqs| then from
    else if TooRecent(acqs, from, dt) then from
    else ReferenceCount(acqs, dt, from + 1)
  }

  /** The job of reference position `i`: its secondary is the acquisition
      nearest to `t + DT years`. */
  function OffsetPair(acqs: seq<Acquisition>, i: nat, addYears: (int, int) -> int, dt: int): Pair
    requires i < |acqs|
  {
    var sec := acqs[Nearest(acqs, addYears(acqs[i].startTime, dt))];
    MakePair(acqs[i].sceneName, sec.sceneName, DateLo, DateHi)
  }

  /** The outcome of the offset loop: the jobs of the leading references, or
      the NameError of line 71 when the very first acquisition is already
      too recent. */
  function OffsetSpec(acqs: seq<Acquisition>, dt: int, addYears: (int, int) -> int): Result<seq<Pair>>
  {
    var c := ReferenceCount(acqs, dt, 0);
    if c == 0 && |acqs| > 0 then Err(RefNameUnbound)
    else Ok(seq(c, i requires 0 <= i < c => OffsetPair(acqs, i, addYears, dt)))
  }

  /** The `iterrows` loop of lines 68-80, walking forward from the earliest
      acquisition and stopping at the first one within DT years of the last. */
  method OffsetPairs(acqs: seq<Acquisition>, dt: int, addYears: (int, int) -> int) returns (res: Result<seq<Pair>>)
    ensures res == OffsetSpec(acqs, dt, addYears)
  {
    var pairs: seq<Pair> := [];
    var refname: Option<string> := None;
    var i := 0;
    while i < |acqs|
      invariant 0 <= i <= |acqs|
      invariant forall j :: 0 <= j < i ==> !TooRecent(acqs, j, dt)
      invariant |pairs| == i
      invariant forall j :: 0 <= j < i ==> pairs[j] == OffsetPair(acqs, j, addYears, dt)
      invariant refname.Some? <==> i > 0
    {
      var gap := acqs[|acqs| - 1].startTime - acqs[i].startTime;
      if gap < 365 * dt * SecondsPerDay {
        if refname.None? {
          // the message of line 71 reads `refname`, which is still unbound
          ReferenceCountIs(acqs, dt, 0);
          return Err(RefNameUnbound);
        }
        break;
      }
      refname := Some(acqs[i].sceneName);
      var ts := addYears(acqs[i].startTime, dt);
      var idx := Nearest(acqs, ts);
      var secname := acqs[idx].sceneName;
      pairs := pairs + [MakePair(refname.value, secname, DateLo, DateHi)];
      i := i + 1;
    }
    ReferenceCountIs(acqs, dt, i);
    assert pairs == seq(i, j requires 0 <= j < i => OffsetPair(acqs, j, addYears, dt));
    res := Ok(pairs);
  }

  /** ReferenceCount is determined by its two postconditions. */
  lemma ReferenceCountIs(acqs: seq<Acquisition>, dt: int, c: nat)
    requires c <= |acqs|
    requires forall j :: 0 <= j < c ==> !TooRecent(acqs, j, dt)
    requires c < |acqs| ==> TooRecent(acqs, c, dt)
    ensures ReferenceCount(acqs, dt, 0) == c
  {
  }

  // ---------------------------------------------------------------------
  // properties of the offset strategy

  /** On a chronological list the references are exactly the acquisitions
      at least DT years before the last one: being too recent is preserved
      going forward, so the loop stops at the first too-recent position and
      every later one is too recent as well. */
  lemma OffsetReferencesExactly(acqs: seq<Acquisition>, dt: int, j: nat)
    requires SortedByTime(acqs) && j < |acqs|
    ensures j < ReferenceCount(acqs, dt, 0) <==> !TooRecent(acqs, j, dt)
  {
    var c := ReferenceCount(acqs, dt, 0);
    if c <= j {
      assert TooRecent(acqs, c, dt);
      assert acqs[c].startTime <= acqs[j].startTime;
    }
  }

  /** With a positive offset the last acquisition is never a reference, so
      a non-empty list always stops before its end. */
  lemma LastNeverReference(acqs: seq<Acquisition>, dt: int)
    requires |acqs| > 0 && dt > 0
    ensures ReferenceCount(acqs, dt, 0) < |acqs|
  {
    assert TooRecent(acqs, |acqs| - 1, dt);
  }

  /** With a positive DT a single acquisition is too recent in relation to
      itself, so the loop's first test fails and line 71 raises the
      NameError. */
  lemma SingleAcquisitionFails(a: Acquisition, dt: int, addYears: (int, int) -> int)
    requires dt > 0
    ensures OffsetSpec([a], dt, addYears) == Err(RefNameUnbound)
  {
    LastNeverReference([a], dt);
  }

  /** When the date offset never moves a time backwards, a secondary found
      by nearest search is never earlier than its reference. */
  lemma OffsetSecondaryNotEarlier(acqs: seq<Acquisition>, i: nat, addYears: (int, int) -> int, dt: int)
    requires i < |acqs|
    requires addYears(acqs[i].startTime, dt) >= acqs[i].startTime
    ensures acqs[Nearest(acqs, addYears(acqs[i].startTime, dt))].startTime >= acqs[i].startTime
  {
    var target := addYears(acqs[i].startTime, dt);
    var k := Nearest(acqs, target);
    assert Dist(acqs[k].startTime, target) <= Dist(acqs[i].startTime, target);
  }

  /** Every offset job is `(acqs[i], the acquisition nearest to t_i + DT years)`
      for the i-th reference, the references being the leading acquisitions
      at least DT years before the last. */
  lemma OffsetJobs(acqs: seq<Acquisition>, dt: int, addYears: (int, int) -> int, k: nat)
    requires SortedByTime(acqs)
    requires OffsetSpec(acqs, dt, addYears).Ok?
    requires k < |OffsetSpec(acqs, dt, addYears).value|
    ensures !TooRecent(acqs, k, dt)
    ensures var p := OffsetSpec(acqs, dt, addYears).value[k];
      var target := addYears(acqs[k].startTime, dt);
      && p.reference == acqs[k].sceneName
      && exists j :: 0 <= j < |acqs| && p.secondary == acqs[j].sceneName
           && forall l :: 0 <= l < |acqs| ==> Dist(acqs[j].startTime, target) <= Dist(acqs[l].startTime, target)
  {
    var target := addYears(acqs[k].startTime, dt);
    var j := Nearest(acqs, target);
    OffsetReferencesExactly(acqs, dt, k);
    assert OffsetSpec(acqs, dt, addYears).value[k] == OffsetPair(acqs, k, addYears, dt);
  }

  /** Across a gap in coverage nearest search can come back to the
      reference itself: two acquisitions 1000 days apart, DT = 1, give the
      single job whose reference and secondary are the same scene. */
  lemma OffsetSelfPair(a: Acquisition, b: Acquisition)
    requires a.startTime == 0 && b.startTime == 1000 * SecondsPerDay
    ensures OffsetSpec([a, b], 1, (t, y) => t + 365 * y * SecondsPerDay)
         == Ok([MakePair(a.sceneName, a.sceneName, DateLo, DateHi)])
  {
    var acqs := [a, b];
    var add := (t: int, y: int) => t + 365 * y * SecondsPerDay;
    assert !TooRecent(acqs, 0, 1) && TooRecent(acqs, 1, 1);
    ReferenceCountIs(acqs, 1, 1);
    assert Nearest(acqs, add(0, 1)) == 0;
    var ps := seq(1, i requires 0 <= i < 1 => OffsetPair(acqs, i, add, 1));
    assert ps == [OffsetPair(acqs, 0, add, 1)];
  }

  // ---------------------------------------------------------------------
  // properties of the dense strategy

  /** The dense strategy makes one job per feasible attempt: for references
      `0 .. last` the sum of `min(NPAIRS, n - 1 - r)`. */
  lemma DenseJobCount(ids: seq<string>, last: nat, npairs: int, pairs: seq<Pair>)
    requires Jobs(ids, Grid(last + 1, Depth(npairs), |ids|, true), pairs, DateLo, DateHi)
    ensures |pairs| == FeasibleCount(last + 1, Depth(npairs), |ids|)
  {
    GridCount(last + 1, Depth(npairs), |ids|);
  }

  /** Dense job `k` pairs the scene at position `r <= last` of the
      chronological list with the one `s` places later, `1 <= s <= NPAIRS`,
      so its secondary is never earlier than its reference. */
  lemma DenseJobsChronological(ordered: seq<Acquisition>, last: nat, npairs: int, pairs: seq<Pair>, k: nat)
    requires SortedByTime(ordered)
    requires Jobs(Names(ordered), Grid(last + 1, Depth(npairs), |ordered|, true), pairs, DateLo, DateHi)
    requires k < |pairs|
    ensures var a := Grid(last + 1, Depth(npairs), |ordered|, true)[k];
      && a.r <= last && 1 <= a.s <= Depth(npairs) && a.r + a.s < |ordered|
      && pairs[k].reference == ordered[a.r].sceneName
      && pairs[k].secondary == ordered[a.r + a.s].sceneName
      && ordered[a.r].startTime <= ordered[a.r + a.s].startTime
  {
    var ids := Names(ordered);
    var a := Grid(last + 1, Depth(npairs), |ordered|, true)[k];
    assert pairs[k] == MakePair(ids[a.r], ids[a.r + a.s], DateLo, DateHi);
  }

  /** Scene names without quotes give jobs that the matrix reader reads
      back exactly. */
  lemma JobsReadBack(ids: seq<string>, idx: seq<Attempt>, pairs: seq<Pair>, lo: nat, hi: nat)
    requires forall i :: 0 <= i < |ids| ==> NoQuote(ids[i])
    requires Jobs(ids, idx, pairs, lo, hi)
    ensures ParseMatrix(MatrixJson(pairs)) == Some(pairs)
  {
    forall k | 0 <= k < |pairs| ensures NoQuotePair(pairs[k])
    {
      MakePairNoQuote(ids[idx[k].r], ids[idx[k].r + idx[k].s], lo, hi);
    }
    MatrixRoundTrip(pairs);
  }

  // ---------------------------------------------------------------------
  // the script

  /** The strategy switch of line 65: `if DT:` is false for a missing or a
      zero offset. */
  predicate UsesOffsets(cfg: Config)
  {
    cfg.offsetYears.Some? && cfg.offsetYears.value != 0
  }

  /** Lines 53-96 with the search results given: filter, sort, pair, wrap.
      `ordered` is the filtered, sorted frame the pairing works on. */
  method GetBurstPairs(acqs: seq<Acquisition>, cfg: Config, yearOf: int -> int, addYears: (int, int) -> int)
    returns (ordered: seq<Acquisition>, res: Result<Outcome>)
    ensures SortedByTime(ordered)
    ensures multiset(ordered) == multiset(FilterByOverlap(acqs, MinOverlap))
    ensures res.Ok? ==> var o := res.value;
      && o.burstIds == Names(ordered)
      && o.matrix == MatrixJson(o.pairs)
      && o.count == |o.pairs|
    ensures UsesOffsets(cfg) ==>
      var spec := OffsetSpec(ordered, cfg.offsetYears.value, addYears);
      && (res.Err? <==> spec.Err?)
      && (res.Err? ==> res.error == spec.error)
      && (res.Ok? ==> res.value.pairs == spec.value && res.value.skipped == [])
    ensures !UsesOffsets(cfg) ==>
      var e := LastIndexOfYear(ordered, yearOf, cfg.year);
      && (res.Err? <==> e.None?)
      && (res.Err? ==> res.error == NoAcquisitionInYear)
      && (res.Ok? ==>
            && Jobs(res.value.burstIds, Grid(e.value + 1, Depth(cfg.npairs), |ordered|, true), res.value.pairs, DateLo, DateHi)
            && res.value.skipped == Grid(e.value + 1, Depth(cfg.npairs), |ordered|, false))
  {
    var kept := FilterByOverlap(acqs, MinOverlap);
    ordered := SortByTime(kept);
    var burstIds := Names(ordered);
    var r := Pairing(ordered, burstIds, cfg, yearOf, addYears);
    match r
    case Err(e) =>
      res := Err(e);
    case Ok((pairs, skipped)) =>
      res := Ok(Outcome(burstIds, pairs, skipped, MatrixJson(pairs), |pairs|));
  }

  /** Lines 64-92: the strategy switch and the chosen loop. */
  method Pairing(ordered: seq<Acquisition>, burstIds: seq<string>, cfg: Config, yearOf: int -> int, addYears: (int, int) -> int)
    returns (res: Result<(seq<Pair>, seq<Attempt>)>)
    requires burstIds == Names(ordered)
    ensures UsesOffsets(cfg) ==>
      var spec := OffsetSpec(ordered, cfg.offsetYears.value, addYears);
      && (res.Err? <==> spec.Err?)
      && (res.Err? ==> res.error == spec.error)
      && (res.Ok? ==> res.value.0 == spec.value && res.value.1 == [])
    ensures !UsesOffsets(cfg) ==>
      var e := LastIndexOfYear(ordered, yearOf, cfg.year);
      && (res.Err? <==> e.None?)
      && (res.Err? ==> res.error == NoAcquisitionInYear)
      && (res.Ok? ==>
            && Jobs(burstIds, Grid(e.value + 1, Depth(cfg.npairs), |ordered|, true), res.value.0, DateLo, DateHi)
            && res.value.1 == Grid(e.value + 1, Depth(cfg.npairs), |ordered|, false))
  {
    if UsesOffsets(cfg) {
      var r := OffsetPairs(ordered, cfg.offsetYears.value, addYears);
      match r
      case Err(e) =>
        res := Err(e);
      case Ok(pairs) =>
        res := Ok((pairs, []));
    } else {
      res := DenseStrategy(ordered, burstIds, cfg.year, cfg.npairs, yearOf);
    }
  }

  /** Lines 83-92: find the last reference of the chosen year, then pair. */
  method DenseStrategy(ordered: seq<Acquisition>, burstIds: seq<string>, year: int, npairs: int, yearOf: int -> int)
    returns (res: Result<(seq<Pair>, seq<Attempt>)>)
    requires burstIds == Names(ordered)
    ensures var e := LastIndexOfYear(ordered, yearOf, year);
      && (res.Err? <==> e.None?)
      && (res.Err? ==> res.error == NoAcquisitionInYear)
      && (res.Ok? ==>
            && Jobs(burstIds, Grid(e.value + 1, Depth(npairs), |ordered|, true), res.value.0, DateLo, DateHi)
            && res.value.1 == Grid(e.value + 1, Depth(npairs), |ordered|, false))
  {
    var e := LastIndexOfYear(ordered, yearOf, year);
    if e.None? {
      return Err(NoAcquisitionInYear);
    }
    var pairs, skipped := DensePairs(burstIds, e.value, npairs);
    res := Ok((pairs, skipped));
  }
}
