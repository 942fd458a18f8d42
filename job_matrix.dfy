/** The GitHub Actions matrix `{"include": [...]}` both pairing scripts write,
    and a reader for it that recovers the pair list. The emitter writes what
    `json.dumps` writes with its default separators (`", "` between items,
    `": "` after keys) for strings that need no escaping: printable ASCII
    without `"` or `\`, which holds for Sentinel-1 scene names. */
module JobMatrix {
  import opened Text
  import opened Acquisitions

  const ReferenceField := "{\"reference\": \""
  const SecondaryField := ", \"secondary\": \""
  const NameField := ", \"name\": \""
  const Close := "}"
  const Envelope := "{\"include\":"

  function PairJson(p: Pair): string
  {
    ReferenceField + (p.reference + "\"" + (SecondaryField + (p.secondary + "\"" + (NameField + (p.name + "\"" + Close)))))
  }

  function ItemsJson(ps: seq<Pair>): string
  {
    if |ps| == 0 then ""
    else if |ps| == 1 then PairJson(ps[0])
    else PairJson(ps[0]) + ", " + ItemsJson(ps[1..])
  }

  /** `json.dumps(pairs)`. */
  function ListJson(ps: seq<Pair>): (r: string)
    ensures |r| >= 2 && r[0] == '[' && r[|r| - 1] == ']'
  {
    "[" + ItemsJson(ps) + "]"
  }

  /** `f'{{"include":{json.dumps(pairs)}}}'`. */
  function MatrixJson(ps: seq<Pair>): (r: string)
    ensures |r| > |Envelope| && r[..|Envelope|] == Envelope && r[|r| - 1] == '}'
  {
    Envelope + ListJson(ps) + "}"
  }

  // ---------------------------------------------------------------------
  // reader

  predicate NoQuote(s: string) { forall k :: 0 <= k < |s| ==> s[k] != '"' }

  predicate NoQuotePair(p: Pair)
  {
    NoQuote(p.reference) && NoQuote(p.secondary) && NoQuote(p.name)
  }

  function StripPrefix(lit: string, s: string): (r: Option<string>)
    ensures r.Some? ==> |r.value| == |s| - |lit|
  {
    if lit <= s then Some(s[|lit|..]) else None
  }

  /** The characters before the first `"` and what follows that quote. */
  function ReadUntilQuote(s: string): (r: Option<(string, string)>)
    ensures r.Some? ==> |r.value.1| < |s|
  {
    if |s| == 0 then None
    else if s[0] == '"' then Some(("", s[1..]))
    else match ReadUntilQuote(s[1..])
      case None => None
      case Some((body, rest)) => Some(([s[0]] + body, rest))
  }

  /** Reads one quoted value that follows the literal `lit`. */
  function ReadField(lit: string, s: string): (r: Option<(string, string)>)
    ensures r.Some? ==> |r.value.1| < |s|
  {
    match StripPrefix(lit, s)
    case None => None
    case Some(t) => ReadUntilQuote(t)
  }

  function ParseObject(s: string): (r: Option<(Pair, string)>)
    ensures r.Some? ==> |r.value.1| < |s|
  {
    match ReadField(ReferenceField, s)
    case None => None
    case Some((reference, s1)) =>
      match ReadField(SecondaryField, s1)
      case None => None
      case Some((secondary, s2)) =>
        match ReadField(NameField, s2)
        case None => None
        case Some((name, s3)) =>
          match StripPrefix(Close, s3)
          case None => None
          case Some(s4) => Some((Pair(reference, secondary, name), s4))
  }

  /** Reads `item, item, ..., item]`. */
  function ParseItems(s: string): Option<seq<Pair>>
    decreases |s|
  {
    match ParseObject(s)
    case None => None
    case Some((p, rest)) =>
      if rest == "]" then Some([p])
      else if ", " <= rest then
        match ParseItems(rest[2..])
        case None => None
        case Some(ps) => Some([p] + ps)
      else None
  }

  function ParseList(s: string): Option<seq<Pair>>
  {
    if s == "[]" then Some([])
    else if "[" <= s then ParseItems(s[1..])
    else None
  }

  /** Reads the pair list back out of a matrix string. */
  function ParseMatrix(s: string): Option<seq<Pair>>
  {
    match StripPrefix(Envelope, s)
    case None => None
    case Some(t) => if |t| > 0 && t[|t| - 1] == '}' then ParseList(t[..|t| - 1]) else None
  }

  // ---------------------------------------------------------------------
  // round trip

  lemma StripPrefixCat(lit: string, t: string)
    ensures StripPrefix(lit, lit + t) == Some(t)
  {
    assert lit <= lit + t;
    assert (lit + t)[|lit|..] == t;
  }

  lemma {:induction false} ReadQuoted(x: string, t: string)
    requires NoQuote(x)
    ensures ReadUntilQuote(x + "\"" + t) == Some((x, t))
  {
    var s := x + "\"" + t;
    if |x| == 0 {
      assert s == "\"" + t;
      assert s[1..] == t;
    } else {
      assert s[1..] == x[1..] + "\"" + t;
      ReadQuoted(x[1..], t);
      assert [x[0]] + x[1..] == x;
    }
  }

  lemma ReadFieldCat(lit: string, x: string, t: string)
    requires NoQuote(x)
    ensures ReadField(lit, lit + (x + "\"" + t)) == Some((x, t))
  {
    StripPrefixCat(lit, x + "\"" + t);
    ReadQuoted(x, t);
  }

  lemma ParseObjectCat(p: Pair, t: string)
    requires NoQuotePair(p)
    ensures ParseObject(PairJson(p) + t) == Some((p, t))
  {
    var s3 := Close + t;
    var s2 := NameField + (p.name + "\"" + s3);
    var s1 := SecondaryField + (p.secondary + "\"" + s2);
    var s0 := ReferenceField + (p.reference + "\"" + s1);
    assert PairJson(p) + t == s0;
    ReadFieldCat(ReferenceField, p.reference, s1);
    ReadFieldCat(SecondaryField, p.secondary, s2);
    ReadFieldCat(NameField, p.name, s3);
    StripPrefixCat(Close, t);
  }

  /** The items of a quote-free pair list, followed by `]`, read back as
      that list. */
  lemma {:induction false} ParseItemsCat(ps: seq<Pair>)
    requires |ps| > 0 && forall i :: 0 <= i < |ps| ==> NoQuotePair(ps[i])
    ensures ParseItems(ItemsJson(ps) + "]") == Some(ps)
  {
    if |ps| == 1 {
      ParseItemsOne(ps);
    } else {
      var tail := ItemsJson(ps[1..]) + "]";
      var rest := ", " + tail;
      assert ItemsJson(ps) + "]" == PairJson(ps[0]) + rest;
      assert ParseObject(PairJson(ps[0]) + rest) == Some((ps[0], rest)) by {
        ParseObjectCat(ps[0], rest);
      }
      assert ParseItems(tail) == Some(ps[1..]) by {
        ParseItemsCat(ps[1..]);
      }
      assert rest != "]" && ", " <= rest && rest[2..] == tail;
      assert [ps[0]] + ps[1..] == ps;
    }
  }

  lemma ParseItemsOne(ps: seq<Pair>)
    requires |ps| == 1 && NoQuotePair(ps[0])
    ensures ParseItems(ItemsJson(ps) + "]") == Some(ps)
  {
    assert ItemsJson(ps) == PairJson(ps[0]);
    assert ParseObject(PairJson(ps[0]) + "]") == Some((ps[0], "]")) by {
      ParseObjectCat(ps[0], "]");
    }
    assert ps == [ps[0]];
  }

  lemma ItemsNonEmpty(ps: seq<Pair>)
    requires |ps| > 0
    ensures |ItemsJson(ps)| >= |PairJson(ps[0])| >= |ReferenceField|
  {
  }

  lemma ListRoundTrip(ps: seq<Pair>)
    requires forall i :: 0 <= i < |ps| ==> NoQuotePair(ps[i])
    ensures ParseList(ListJson(ps)) == Some(ps)
  {
    var list := ListJson(ps);
    if |ps| == 0 {
      assert list == "[]";
    } else {
      var rest := ItemsJson(ps) + "]";
      assert list == "[" + rest;
      assert list != "[]" by {
        ItemsNonEmpty(ps);
        assert |list| > 2;
      }
      assert "[" <= list && list[1..] == rest;
      assert ParseItems(rest) == Some(ps) by {
        ParseItemsCat(ps);
      }
    }
  }

  /** A job built from quote-free scene names is quote-free. */
  lemma MakePairNoQuote(reference: string, secondary: string, lo: nat, hi: nat)
    requires NoQuote(reference) && NoQuote(secondary)
    ensures NoQuotePair(MakePair(reference, secondary, lo, hi))
  {
    SliceSpec(reference, lo, hi);
    SliceSpec(secondary, lo, hi);
    var x, y := Slice(reference, lo, hi), Slice(secondary, lo, hi);
    var n := x + "_" + y;
    forall k | 0 <= k < |n| ensures n[k] != '"'
    {
      if k < |x| { assert n[k] == x[k]; }
      else if k > |x| { assert n[k] == y[k - |x| - 1]; }
    }
  }

  /** Reading the emitted matrix back gives exactly the pairs, in order. */
  lemma MatrixRoundTrip(ps: seq<Pair>)
    requires forall i :: 0 <= i < |ps| ==> NoQuotePair(ps[i])
    ensures ParseMatrix(MatrixJson(ps)) == Some(ps)
  {
    var list := ListJson(ps);
    var t := list + "}";
    assert MatrixJson(ps) == Envelope + t;
    assert StripPrefix(Envelope, Envelope + t) == Some(t) by {
      StripPrefixCat(Envelope, t);
    }
    assert |t| > 0 && t[|t| - 1] == '}' && t[..|t| - 1] == list;
    assert ParseList(list) == Some(ps) by {
      ListRoundTrip(ps);
    }
  }
}
