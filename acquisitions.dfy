/** Acquisitions returned by the catalogue search, the overlap filter both
    pairing scripts apply, and the reference/secondary pairs they emit. */
module Acquisitions {
  import opened Text

  /** One search result: the scene name, its start time (integer seconds)
      and the fraction of the reference burst footprint it covers (computed
      outside this model from the footprint geometry). */
  datatype Acquisition = Acquisition(sceneName: string, startTime: int, overlap: real)

  /** One job of the matrix, in the key order the scripts build it. */
  datatype Pair = Pair(reference: string, secondary: string, name: string)

  /** `gf.query('overlap >= threshold')`: keeps the acquisitions covering at
      least `threshold` of the reference footprint, in their original order. */
  function FilterByOverlap(acqs: seq<Acquisition>, threshold: real): (kept: seq<Acquisition>)
    ensures |kept| <= |acqs|
    ensures forall a :: a in kept <==> a in acqs && a.overlap >= threshold
  {
    if |acqs| == 0 then []
    else
      var rest := FilterByOverlap(acqs[1..], threshold);
      assert acqs == [acqs[0]] + acqs[1..];
      if acqs[0].overlap >= threshold then [acqs[0]] + rest else rest
  }

  /** The filter distributes over concatenation, so the survivors keep their
      relative order. */
  lemma {:induction false} FilterConcat(a: seq<Acquisition>, b: seq<Acquisition>, threshold: real)
    ensures FilterByOverlap(a + b, threshold)
         == FilterByOverlap(a, threshold) + FilterByOverlap(b, threshold)
  {
    if |a| > 0 {
      assert (a + b)[1..] == a[1..] + b;
      FilterConcat(a[1..], b, threshold);
    } else {
      assert a + b == b;
    }
  }

  /** The filter keeps every copy of a surviving acquisition: as a multiset
      the result is the input restricted to the survivors. */
  lemma {:induction false} FilterMultiset(acqs: seq<Acquisition>, threshold: real, a: Acquisition)
    ensures multiset(FilterByOverlap(acqs, threshold))[a]
         == if a.overlap >= threshold then multiset(acqs)[a] else 0
  {
    if |acqs| > 0 {
      FilterMultiset(acqs[1..], threshold, a);
      assert acqs == [acqs[0]] + acqs[1..];
    }
  }

  /** `gf.sceneName.to_list()`. */
  function Names(acqs: seq<Acquisition>): (names: seq<string>)
    ensures |names| == |acqs|
    ensures forall i :: 0 <= i < |acqs| ==> names[i] == acqs[i].sceneName
  {
    if |acqs| == 0 then [] else [acqs[0].sceneName] + Names(acqs[1..])
  }

  /** `f'{ref[lo:hi]}_{sec[lo:hi]}'`: the date fields of the two scene names
      joined by an underscore. */
  function ShortName(reference: string, secondary: string, lo: nat, hi: nat): string
  {
    Slice(reference, lo, hi) + "_" + Slice(secondary, lo, hi)
  }

  /** The short name splits back into the two date fields when neither
      contains an underscore. */
  lemma ShortNameFields(reference: string, secondary: string, lo: nat, hi: nat)
    requires !Contains(Slice(reference, lo, hi), "_") && !Contains(Slice(secondary, lo, hi), "_")
    ensures Split(ShortName(reference, secondary, lo, hi), "_")
         == [Slice(reference, lo, hi), Slice(secondary, lo, hi)]
  {
    SplitCons(Slice(reference, lo, hi), "_", Slice(secondary, lo, hi));
    SplitNone(Slice(secondary, lo, hi), "_");
  }

  /** The job built from two scene names. */
  function MakePair(reference: string, secondary: string, lo: nat, hi: nat): (p: Pair)
  {
    Pair(reference, secondary, ShortName(reference, secondary, lo, hi))
  }

  /** Ascending by start time. */
  predicate SortedByTime(acqs: seq<Acquisition>)
  {
    forall i, j :: 0 <= i < j < |acqs| ==> acqs[i].startTime <= acqs[j].startTime
  }

  /** Ascending in Python's string order. */
  predicate LexSorted(names: seq<string>)
  {
    forall i, j :: 0 <= i < j < |names| ==> LexLe(names[i], names[j])
  }
}
