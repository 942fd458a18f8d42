/** Python `str` semantics used by the scripts: slicing with clamped bounds,
    `split` on a non-empty separator and its inverse `join`, `rstrip()`,
    `zfill`, and the code-point lexicographic order of `<=` on strings. */
module Text {

  datatype Option<T> = None | Some(value: T)

  function Min(a: int, b: int): int { if a <= b then a else b }

  /** `s[lo:hi]` for non-negative bounds: both bounds are clamped to `len(s)`. */
  function Slice(s: string, lo: nat, hi: nat): string
    decreases |s|
  {
    if |s| == 0 || hi == 0 || hi <= lo then []
    else if lo > 0 then Slice(s[1..], lo - 1, hi - 1)
    else [s[0]] + Slice(s[1..], 0, hi - 1)
  }

  /** The slice holds the characters of `s` from `lo` up to the smaller of
      `hi` and `len(s)`; it is empty when `hi <= lo` or `lo >= len(s)`. */
  lemma {:induction false} SliceSpec(s: string, lo: nat, hi: nat)
    ensures Slice(s, lo, hi) == if Min(hi, |s|) <= Min(lo, |s|) then [] else s[lo..Min(hi, |s|)]
    decreases |s|
  {
    if |s| == 0 || hi == 0 || hi <= lo {
    } else if lo > 0 {
      SliceSpec(s[1..], lo - 1, hi - 1);
      if Min(hi, |s|) > Min(lo, |s|) {
        assert s[1..][lo - 1..Min(hi - 1, |s| - 1)] == s[lo..Min(hi, |s|)];
      }
    } else {
      SliceSpec(s[1..], 0, hi - 1);
      assert s[..Min(hi, |s|)] == [s[0]] + s[1..][..Min(hi - 1, |s| - 1)];
    }
  }

  /** `s[:n]`. */
  function Take(s: string, n: nat): (r: string)
    ensures r == s[..Min(n, |s|)]
  {
    SliceSpec(s, 0, n);
    Slice(s, 0, n)
  }

  // ---------------------------------------------------------------------
  // split / join

  predicate OccursAt(s: string, sep: string, j: nat)
  {
    j + |sep| <= |s| && s[j..j + |sep|] == sep
  }

  predicate Contains(s: string, sep: string)
  {
    exists j: nat | j <= |s| :: OccursAt(s, sep, j)
  }

  /** Leftmost occurrence of `sep` in `s` at or after position `from`. */
  function FindFrom(s: string, sep: string, from: nat): (r: Option<nat>)
    requires |sep| > 0
    ensures r.Some? ==> from <= r.value && OccursAt(s, sep, r.value)
    ensures r.Some? ==> forall j: nat :: from <= j < r.value ==> !OccursAt(s, sep, j)
    ensures r.None? ==> forall j: nat :: from <= j ==> !OccursAt(s, sep, j)
    decreases |s| - from
  {
    if from + |sep| > |s| then None
    else if s[from..from + |sep|] == sep then Some(from)
    else FindFrom(s, sep, from + 1)
  }

  /** `s.split(sep)` for a non-empty `sep`: the pieces between the leftmost
      non-overlapping occurrences of `sep`; a string without `sep` is one piece. */
  function Split(s: string, sep: string): (parts: seq<string>)
    requires |sep| > 0
    ensures |parts| >= 1
    decreases |s|
  {
    match FindFrom(s, sep, 0)
    case None => [s]
    case Some(i) => [s[..i]] + Split(s[i + |sep|..], sep)
  }

  /** `sep.join(parts)`. */
  function Join(parts: seq<string>, sep: string): string
  {
    if |parts| == 0 then ""
    else if |parts| == 1 then parts[0]
    else parts[0] + sep + Join(parts[1..], sep)
  }

  /** Joining the pieces of a split gives the original string back. */
  lemma {:induction false} JoinSplit(s: string, sep: string)
    requires |sep| > 0
    ensures Join(Split(s, sep), sep) == s
    decreases |s|
  {
    match FindFrom(s, sep, 0)
    case None =>
    case Some(i) =>
      var rest := s[i + |sep|..];
      var parts := [s[..i]] + Split(rest, sep);
      assert Split(s, sep) == parts;
      assert parts[1..] == Split(rest, sep);
      calc {
        Join(parts, sep);
        s[..i] + sep + Join(Split(rest, sep), sep);
        { JoinSplit(rest, sep); }
        s[..i] + sep + rest;
        { assert s[i..i + |sep|] == sep; }
        s;
      }
  }

  /** No piece of a split contains the separator. */
  lemma {:induction false} SplitPiecesFree(s: string, sep: string)
    requires |sep| > 0
    ensures forall p :: p in Split(s, sep) ==> !Contains(p, sep)
    decreases |s|
  {
    match FindFrom(s, sep, 0)
    case None =>
    case Some(i) =>
      var rest := s[i + |sep|..];
      SplitPiecesFree(rest, sep);
      assert !Contains(s[..i], sep) by {
        forall j: nat | j <= i
          ensures !OccursAt(s[..i], sep, j)
        {
          if j + |sep| <= i {
            assert s[..i][j..j + |sep|] == s[j..j + |sep|];
            assert !OccursAt(s, sep, j);
          }
        }
      }
      assert Split(s, sep) == [s[..i]] + Split(rest, sep);
  }

  /** Splitting `a + sep + b` where `sep` first occurs right after `a`
      yields `a` followed by the pieces of `b`. */
  lemma SplitAt(a: string, sep: string, b: string)
    requires |sep| > 0
    requires forall j: nat :: j < |a| ==> !OccursAt(a + sep + b, sep, j)
    ensures Split(a + sep + b, sep) == [a] + Split(b, sep)
  {
    var s := a + sep + b;
    assert OccursAt(s, sep, |a|) by {
      assert s[|a|..|a| + |sep|] == sep;
    }
    assert FindFrom(s, sep, 0) == Some(|a|);
    assert s[..|a|] == a;
    assert s[|a| + |sep|..] == b;
  }

  /** With a one-character separator it suffices that `a` does not contain it. */
  lemma SplitCons(a: string, sep: string, b: string)
    requires |sep| == 1 && !Contains(a, sep)
    ensures Split(a + sep + b, sep) == [a] + Split(b, sep)
  {
    var s := a + sep + b;
    forall j: nat | j < |a| && OccursAt(s, sep, j)
      ensures false
    {
      assert a[j..j + |sep|] == s[j..j + |sep|];
      assert OccursAt(a, sep, j);
    }
    SplitAt(a, sep, b);
  }

  /** Splitting a join of pieces free of a one-character separator gives the
      pieces back. */
  lemma {:induction false} SplitJoin(parts: seq<string>, sep: string)
    requires |sep| == 1 && |parts| >= 1
    requires forall i :: 0 <= i < |parts| ==> !Contains(parts[i], sep)
    ensures Split(Join(parts, sep), sep) == parts
  {
    if |parts| == 1 {
      SplitNone(parts[0], sep);
    } else {
      SplitJoin(parts[1..], sep);
      SplitCons(parts[0], sep, Join(parts[1..], sep));
      assert [parts[0]] + parts[1..] == parts;
    }
  }

  /** A string without the separator splits into itself alone. */
  lemma SplitNone(a: string, sep: string)
    requires |sep| > 0 && !Contains(a, sep)
    ensures Split(a, sep) == [a]
  {
    assert FindFrom(a, sep, 0).None?;
  }

  // ---------------------------------------------------------------------
  // sequences

  /** Two permutations of each other that agree from position `n` on
      permute each other before it too. */
  lemma PrefixMultiset<T>(x: seq<T>, y: seq<T>, n: nat)
    requires n <= |x| == |y| && multiset(x) == multiset(y)
    requires forall k :: n <= k < |x| ==> x[k] == y[k]
    ensures x[n..] == y[n..]
    ensures multiset(x[..n]) == multiset(y[..n])
  {
    assert x[n..] == y[n..];
    assert x == x[..n] + x[n..];
    assert y == y[..n] + y[n..];
    assert multiset(x) == multiset(x[..n]) + multiset(x[n..]);
    assert multiset(y) == multiset(y[..n]) + multiset(y[n..]);
    forall e
      ensures multiset(x[..n])[e] == multiset(y[..n])[e]
    {
      assert multiset(x)[e] == multiset(x[..n])[e] + multiset(x[n..])[e];
      assert multiset(y)[e] == multiset(y[..n])[e] + multiset(y[n..])[e];
    }
  }

  // ---------------------------------------------------------------------
  // rstrip

  /** The characters Python's `str.isspace()` accepts, which `rstrip()`
      with no argument removes. */
  predicate IsSpace(c: char)
  {
    c == ' ' || ('\t' <= c <= '\r') || ('\U{1c}' <= c <= '\U{1f}')
    || c == '\U{85}' || c == '\U{a0}' || c == '\U{1680}'
    || ('\U{2000}' <= c <= '\U{200a}') || c == '\U{2028}' || c == '\U{2029}'
    || c == '\U{202f}' || c == '\U{205f}' || c == '\U{3000}'
  }

  /** `s.rstrip()`: the longest prefix of `s` that does not end in whitespace. */
  function RStrip(s: string): (r: string)
    ensures r <= s
    ensures r == [] || !IsSpace(r[|r| - 1])
    ensures forall k :: |r| <= k < |s| ==> IsSpace(s[k])
  {
    if |s| > 0 && IsSpace(s[|s| - 1]) then RStrip(s[..|s| - 1]) else s
  }

  // ---------------------------------------------------------------------
  // zfill

  function Zeros(n: nat): (r: string)
    ensures |r| == n && forall k :: 0 <= k < n ==> r[k] == '0'
  {
    if n == 0 then "" else Zeros(n - 1) + "0"
  }

  /** `s.zfill(width)`: pads with `'0'` on the left up to `width`, keeping a
      leading `'+'` or `'-'` in front of the padding; a string at least
      `width` long is returned unchanged. */
  function ZFill(s: string, width: nat): (r: string)
    ensures |r| == if |s| >= width then |s| else width
    ensures |s| >= width ==> r == s
  {
    if |s| >= width then s
    else if |s| > 0 && (s[0] == '+' || s[0] == '-') then [s[0]] + Zeros(width - |s|) + s[1..]
    else Zeros(width - |s|) + s
  }

  predicate IsDigit(c: char) { '0' <= c <= '9' }

  predicate AllDigits(s: string) { forall k :: 0 <= k < |s| ==> IsDigit(s[k]) }

  /** Decimal value of a string of ASCII digits. */
  function DecimalValue(s: string): nat
    requires AllDigits(s)
  {
    if |s| == 0 then 0 else 10 * DecimalValue(s[..|s| - 1]) + (s[|s| - 1] as int - '0' as int)
  }

  /** zfill of a digit string: the result has length max(|s|, width), ends
      with `s`, has only zeros in front of it, and denotes the same number. */
  lemma ZFillDigits(s: string, width: nat)
    requires AllDigits(s)
    ensures var r := ZFill(s, width);
      && |r| == (if |s| >= width then |s| else width)
      && r[|r| - |s|..] == s
      && (forall k :: 0 <= k < |r| - |s| ==> r[k] == '0')
      && AllDigits(r) && DecimalValue(r) == DecimalValue(s)
  {
    var r := ZFill(s, width);
    if |s| < width {
      if |s| > 0 { assert IsDigit(s[0]); }
      assert r == Zeros(width - |s|) + s;
      LeadingZeros(width - |s|, s);
    }
  }

  /** Leading zeros do not change a decimal value. */
  lemma {:induction false} LeadingZeros(n: nat, s: string)
    requires AllDigits(s)
    ensures AllDigits(Zeros(n) + s) && DecimalValue(Zeros(n) + s) == DecimalValue(s)
    decreases |s|, n
  {
    var z := Zeros(n) + s;
    if |s| == 0 {
      if n > 0 {
        assert z == Zeros(n - 1) + "0";
        assert z[..|z| - 1] == Zeros(n - 1) + "";
        LeadingZeros(n - 1, "");
        assert Zeros(n - 1) + "" == Zeros(n - 1);
      }
    } else {
      var init := s[..|s| - 1];
      LeadingZeros(n, init);
      assert z[..|z| - 1] == Zeros(n) + init;
      assert z[|z| - 1] == s[|s| - 1];
    }
  }

  // ---------------------------------------------------------------------
  // lexicographic order (Python `<=` on `str`)

  /** `a <= b` on Python strings: code-point lexicographic order, where a
      proper prefix comes first. */
  predicate LexLe(a: string, b: string)
    decreases |a|
  {
    if |a| == 0 then true
    else if |b| == 0 then false
    else if a[0] != b[0] then a[0] < b[0]
    else LexLe(a[1..], b[1..])
  }

  lemma {:induction false} LexLeRefl(a: string)
    ensures LexLe(a, a)
    decreases |a|
  {
    if |a| > 0 { LexLeRefl(a[1..]); }
  }

  lemma {:induction false} LexLeTotal(a: string, b: string)
    ensures LexLe(a, b) || LexLe(b, a)
    decreases |a|
  {
    if |a| > 0 && |b| > 0 && a[0] == b[0] { LexLeTotal(a[1..], b[1..]); }
  }

  lemma {:induction false} LexLeTrans(a: string, b: string, c: string)
    requires LexLe(a, b) && LexLe(b, c)
    ensures LexLe(a, c)
    decreases |a|
  {
    if |a| > 0 && |b| > 0 && |c| > 0 && a[0] == b[0] && b[0] == c[0] {
      LexLeTrans(a[1..], b[1..], c[1..]);
    }
  }

  lemma {:induction false} LexLeAntisym(a: string, b: string)
    requires LexLe(a, b) && LexLe(b, a)
    ensures a == b
    decreases |a|
  {
    if |a| > 0 && |b| > 0 {
      LexLeAntisym(a[1..], b[1..]);
      assert a == [a[0]] + a[1..] && b == [b[0]] + b[1..];
    }
  }
}
