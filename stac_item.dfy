/** The string handling of `hyp32stac` in scripts/hyp3isce2stac.py, lifted
    out of its file reads: the `Key: Value` product metadata, the ESA burst
    ID, the remote paths, the processing timestamps of the ISCE log, the
    asset table and the acquisition dates of the two granule names. */
module StacItem {
  import opened Text

  datatype StacError =
    | MalformedLine(index: nat)   // `dict()` given a line that does not split into two parts
    | MissingKey(key: string)     // `meta[key]` on an absent key
    | MissingField(granule: string) // `split('_')[3]` on a name with fewer than four fields
    | NoTimestamp                 // `timestamps[0]` on an empty list

  datatype Result<T> = Ok(value: T) | Err(error: StacError)

  // ---------------------------------------------------------------------
  // product metadata (lines 45-47)

  const KeySep := ": "

  /** `x.rstrip().split(': ')` as one `dict` entry: a line that splits into
      exactly two parts gives the pair `(key, value)`. */
  function ParseLine(line: string): Option<(string, string)>
  {
    var parts := Split(RStrip(line), KeySep);
    if |parts| == 2 then Some((parts[0], parts[1])) else None
  }

  /** A parsed line is its stripped text cut at its only `": "`: key and value
      joined by the separator give the stripped line back, and neither holds
      the separator. */
  lemma ParseLineParts(line: string)
    requires ParseLine(line).Some?
    ensures ParseLine(line).value.0 + KeySep + ParseLine(line).value.1 == RStrip(line)
    ensures !Contains(ParseLine(line).value.0, KeySep) && !Contains(ParseLine(line).value.1, KeySep)
  {
    var parts := Split(RStrip(line), KeySep);
    JoinSplit(RStrip(line), KeySep);
    SplitPiecesFree(RStrip(line), KeySep);
    assert parts[0] in parts && parts[1] in parts;
    assert Join(parts, KeySep) == parts[0] + KeySep + Join(parts[1..], KeySep);
  }

  /** `[x.rstrip().split(': ') for x in lines]` as `dict` entries: every
      line must split into exactly two parts, and the first that does not is
      the error `dict()` raises. */
  function Entries(lines: seq<string>): (r: Result<seq<(string, string)>>)
    ensures r.Ok? <==> forall j :: 0 <= j < |lines| ==> ParseLine(lines[j]).Some?
    ensures r.Ok? ==>
      && |r.value| == |lines|
      && forall j :: 0 <= j < |lines| ==> ParseLine(lines[j]) == Some(r.value[j])
    ensures r.Err? ==>
      && r.error.MalformedLine? && r.error.index < |lines|
      && ParseLine(lines[r.error.index]).None?
      && forall j :: 0 <= j < r.error.index ==> ParseLine(lines[j]).Some?
  {
    if |lines| == 0 then Ok([])
    else
      var init := lines[..|lines| - 1];
      assert forall j :: 0 <= j < |init| ==> init[j] == lines[j];
      match Entries(init)
      case Err(e) => Err(e)
      case Ok(es) =>
        match ParseLine(lines[|lines| - 1])
        case None => Err(MalformedLine(|lines| - 1))
        case Some(kv) => Ok(es + [kv])
  }

  /** `dict(entries)`: entries are added in order, so a later entry
      overwrites an earlier one with the same key. */
  function ToMap(entries: seq<(string, string)>): map<string, string>
  {
    if |entries| == 0 then map[]
    else
      var kv := entries[|entries| - 1];
      ToMap(entries[..|entries| - 1])[kv.0 := kv.1]
  }

  /** `dict([x.split(': ') for x in lines])` on the right-stripped lines. */
  function ParseMeta(lines: seq<string>): Result<map<string, string>>
  {
    match Entries(lines)
    case Err(e) => Err(e)
    case Ok(es) => Ok(ToMap(es))
  }

  /** The keys of the dict are exactly the keys of its entries. */
  lemma {:induction false} DictKeys(entries: seq<(string, string)>, k: string)
    ensures k in ToMap(entries) <==> exists j :: 0 <= j < |entries| && entries[j].0 == k
  {
    if |entries| > 0 {
      var n := |entries|;
      var init := entries[..n - 1];
      DictKeys(init, k);
      assert forall j :: 0 <= j < |init| ==> init[j] == entries[j];
      if exists j :: 0 <= j < n && entries[j].0 == k {
        var j :| 0 <= j < n && entries[j].0 == k;
        if j < n - 1 {
          assert init[j].0 == k;
        }
      }
    }
  }

  /** For duplicate keys the last entry wins: an entry whose key no later
      entry repeats supplies that key's value. */
  lemma {:induction false} DictLastWins(entries: seq<(string, string)>, j: nat)
    requires j < |entries|
    requires forall l :: j < l < |entries| ==> entries[l].0 != entries[j].0
    ensures entries[j].0 in ToMap(entries) && ToMap(entries)[entries[j].0] == entries[j].1
  {
    var n := |entries|;
    if j < n - 1 {
      var init := entries[..n - 1];
      assert forall l :: 0 <= l < |init| ==> init[l] == entries[l];
      DictLastWins(init, j);
    }
  }

  /** On the metadata lines: every key of a well-formed line is present,
      with the value of the last line that carries it. */
  lemma MetaLastWins(lines: seq<string>, j: nat)
    requires ParseMeta(lines).Ok? && j < |lines|
    requires forall l :: j < l < |lines| ==> ParseLine(lines[l]).value.0 != ParseLine(lines[j]).value.0
    ensures ParseLine(lines[j]).value.0 in ParseMeta(lines).value
    ensures ParseMeta(lines).value[ParseLine(lines[j]).value.0] == ParseLine(lines[j]).value.1
  {
    var es := Entries(lines).value;
    assert forall l :: 0 <= l < |lines| ==> ParseLine(lines[l]) == Some(es[l]);
    DictLastWins(es, j);
  }

  /** A line `key: value` parses back into its key and value when neither
      contains `": "` and the value is non-empty without trailing whitespace. */
  lemma MetaLineRoundTrip(key: string, value: string)
    requires !Contains(key, KeySep) && !Contains(value, KeySep)
    requires |value| > 0 && !IsSpace(value[|value| - 1])
    ensures ParseLine(key + KeySep + value) == Some((key, value))
  {
    var line := key + KeySep + value;
    assert RStrip(line) == line;
    KeyPrefixFree(key, value);
    SplitAt(key, KeySep, value);
    SplitNone(value, KeySep);
  }

  /** No occurrence of `": "` starts inside a key free of it. */
  lemma KeyPrefixFree(key: string, rest: string)
    requires !Contains(key, KeySep)
    ensures forall j: nat :: j < |key| ==> !OccursAt(key + KeySep + rest, KeySep, j)
  {
    var s := key + KeySep + rest;
    assert |key| < |s| && s[|key|] == ':';
    forall j: nat | j < |key| && OccursAt(s, KeySep, j)
      ensures false
    {
      if j + 2 <= |key| {
        assert key[j..j + 2] == s[j..j + 2];
        assert OccursAt(key, KeySep, j);
      }
    }
  }

  /** An empty value is fatal: right-stripping `key: ` leaves `key:`, which
      does not split. */
  lemma EmptyValueRejected(key: string)
    requires !Contains(key, KeySep) && !Contains(key, ":")
    ensures ParseLine(key + KeySep) == None
  {
    var line := key + KeySep;
    assert RStrip(line) == key + ":" by {
      assert line == (key + ":") + " ";
      assert RStrip(line) == RStrip(key + ":");
    }
    forall j: nat | j <= |key + ":"| && OccursAt(key + ":", KeySep, j)
      ensures false
    {
      assert (key + ":")[j] == ':';
      assert j < |key|;
      assert key[j] == ':';
      assert OccursAt(key, ":", j) by { assert key[j..j + 1] == ":"; }
    }
    SplitNone(key + ":", KeySep);
  }

  /** A value that itself holds `": "` splits into three parts and is fatal. */
  lemma SecondSeparatorRejected(key: string, value1: string, value2: string)
    requires !Contains(key, KeySep) && !Contains(value1, KeySep)
    requires |value2| > 0 && !IsSpace(value2[|value2| - 1])
    ensures ParseLine(key + KeySep + value1 + KeySep + value2) == None
  {
    var line := key + KeySep + value1 + KeySep + value2;
    assert RStrip(line) == line;
    KeyPrefixFree(key, value1 + KeySep + value2);
    assert line == key + KeySep + (value1 + KeySep + value2);
    SplitAt(key, KeySep, value1 + KeySep + value2);
    KeyPrefixFree(value1, value2);
    SplitAt(value1, KeySep, value2);
  }

  /** `meta[key]` on the parsed metadata: present exactly when some line
      carries the key, and the missing-key error otherwise. */
  lemma MetaLookup(lines: seq<string>, key: string)
    requires ParseMeta(lines).Ok?
    ensures Lookup(ParseMeta(lines).value, key).Ok?
        <==> exists j :: 0 <= j < |lines| && ParseLine(lines[j]).value.0 == key
    ensures Lookup(ParseMeta(lines).value, key).Err? ==> Lookup(ParseMeta(lines).value, key).error == MissingKey(key)
  {
    var es := Entries(lines).value;
    assert forall l :: 0 <= l < |lines| ==> ParseLine(lines[l]) == Some(es[l]);
    assert key in ToMap(es) <==> exists j :: 0 <= j < |es| && es[j].0 == key by {
      DictKeys(es, key);
    }
  }

  /** The value `meta[key]` yields is that of the last line carrying the key. */
  lemma MetaLookupLast(lines: seq<string>, j: nat)
    requires ParseMeta(lines).Ok? && j < |lines|
    requires forall l :: j < l < |lines| ==> ParseLine(lines[l]).value.0 != ParseLine(lines[j]).value.0
    ensures Lookup(ParseMeta(lines).value, ParseLine(lines[j]).value.0) == Ok(ParseLine(lines[j]).value.1)
  {
    MetaLastWins(lines, j);
  }

  /** `meta[key]`. */
  function Lookup(meta: map<string, string>, key: string): (r: Result<string>)
    ensures r.Ok? <==> key in meta
    ensures r.Ok? ==> r.value == meta[key]
    ensures r.Err? ==> r.error == MissingKey(key)
  {
    if key in meta then Ok(meta[key]) else Err(MissingKey(key))
  }

  // ---------------------------------------------------------------------
  // burst ID (lines 56-57)

  /** `f'{relative_orbit.zfill(3)}{ref[2:13]}'`. */
  function BurstId(relativeOrbit: string, reference: string): string
  {
    ZFill(relativeOrbit, 3) + Slice(reference, 2, 13)
  }

  /** For a relative orbit of at most three digits and a granule name of at
      least 13 characters, the burst ID is 14 characters: the orbit number
      zero-padded to three digits, then `ref[2:13]`. */
  lemma BurstIdShape(relativeOrbit: string, reference: string)
    requires AllDigits(relativeOrbit) && |relativeOrbit| <= 3 && |reference| >= 13
    ensures var b := BurstId(relativeOrbit, reference);
      && |b| == 14
      && AllDigits(b[..3]) && DecimalValue(b[..3]) == DecimalValue(relativeOrbit)
      && b[3..] == reference[2..13]
  {
    var z := ZFill(relativeOrbit, 3);
    ZFillDigits(relativeOrbit, 3);
    SliceSpec(reference, 2, 13);
    var b := BurstId(relativeOrbit, reference);
    assert b[..3] == z && b[3..] == Slice(reference, 2, 13);
  }

  // ---------------------------------------------------------------------
  // paths (lines 42, 66-67)

  const Bucket := "s3://fufiters/"

  /** `outdir[14:31]`: the two acquisition dates of a HyP3 product name. */
  function Prefix(outdir: string): (r: string)
    ensures r == if |outdir| <= 14 then [] else outdir[14..Min(31, |outdir|)]
  {
    SliceSpec(outdir, 14, 31);
    Slice(outdir, 14, 31)
  }

  /** `f's3://fufiters/{ESABurstId}/{prefix}/{outdir}'`. */
  function RemoteRoot(burstId: string, outdir: string): string
  {
    Bucket + burstId + "/" + Prefix(outdir) + "/" + outdir
  }

  /** `f'{remote_root}/{outdir}'`: the common stem of every asset. */
  function GdalPath(burstId: string, outdir: string): string
  {
    RemoteRoot(burstId, outdir) + "/" + outdir
  }

  predicate NoSlash(s: string) { !Contains(s, "/") }

  /** When the burst ID and the product name contain no `/`, the asset stem
      has the path segments bucket, burst ID, date pair, product directory
      and product name. */
  lemma GdalPathSegments(burstId: string, outdir: string)
    requires NoSlash(burstId) && NoSlash(outdir)
    ensures Split(GdalPath(burstId, outdir), "/")
         == ["s3:", "", "fufiters", burstId, Prefix(outdir), outdir, outdir]
  {
    var p := Prefix(outdir);
    PrefixNoSlash(outdir);
    var t3 := burstId + "/" + (p + "/" + (outdir + "/" + outdir));
    assert GdalPath(burstId, outdir) == Bucket + t3;
    StemSegments(burstId, p, outdir);
    BucketSegments(t3);
  }

  /** The bucket URL contributes the segments `s3:`, the empty one between
      the two slashes, and `fufiters`. */
  lemma BucketSegments(t: string)
    ensures Split(Bucket + t, "/") == ["s3:", "", "fufiters"] + Split(t, "/")
  {
    NoSlashLiteral("s3:");
    NoSlashLiteral("");
    NoSlashLiteral("fufiters");
    var head, pieces := "s3:" + "/" + "" + "/" + "fufiters" + "/", "s3:" + "/" + ("" + "/" + ("fufiters" + "/" + t));
    assert Bucket == head;
    assert pieces == head + t;
    ThreeSegments("s3:", "", "fufiters", t);
  }

  lemma ThreeSegments(a: string, b: string, c: string, t: string)
    requires NoSlash(a) && NoSlash(b) && NoSlash(c)
    ensures Split(a + "/" + (b + "/" + (c + "/" + t)), "/") == [a, b, c] + Split(t, "/")
  {
    SplitCons(c, "/", t);
    SplitCons(b, "/", c + "/" + t);
    SplitCons(a, "/", b + "/" + (c + "/" + t));
  }

  lemma StemSegments(burstId: string, p: string, outdir: string)
    requires NoSlash(burstId) && NoSlash(p) && NoSlash(outdir)
    ensures Split(burstId + "/" + (p + "/" + (outdir + "/" + outdir)), "/") == [burstId, p, outdir, outdir]
  {
    var t5 := outdir + "/" + outdir;
    var t4 := p + "/" + t5;
    SplitCons(outdir, "/", outdir);
    SplitNone(outdir, "/");
    assert Split(t5, "/") == [outdir, outdir];
    SplitCons(p, "/", t5);
    assert Split(t4, "/") == [p, outdir, outdir];
    SplitCons(burstId, "/", t4);
  }

  lemma NoSlashLiteral(s: string)
    requires forall k :: 0 <= k < |s| ==> s[k] != '/'
    ensures NoSlash(s)
  {
    forall j: nat | j <= |s|
      ensures !OccursAt(s, "/", j)
    {
      if j + 1 <= |s| {
        assert s[j..j + 1] == [s[j]];
      }
    }
  }

  lemma PrefixNoSlash(outdir: string)
    requires NoSlash(outdir)
    ensures NoSlash(Prefix(outdir))
  {
    SliceSpec(outdir, 14, 31);
    var p := Prefix(outdir);
    forall j: nat | j <= |p| && OccursAt(p, "/", j)
      ensures false
    {
      assert p == outdir[14..Min(31, |outdir|)];
      assert p[j] == p[j..j + 1][0] == '/';
      assert outdir[14 + j] == '/';
      assert outdir[14 + j..14 + j + 1] == "/";
      assert OccursAt(outdir, "/", 14 + j);
    }
  }

  // ---------------------------------------------------------------------
  // processing timestamps (lines 71-75)

  /** `\d{4}-\d{2}-\d{2} \d{2}:\d{2}:\d{2}`: `D` stands for a digit, every
      other character for itself. */
  const StampShape := "DDDD-DD-DD DD:DD:DD"

  predicate Fits(c: char, shape: char)
  {
    if shape == 'D' then IsDigit(c) else c == shape
  }

  /** `re.match(pattern, x)` succeeds: `x` starts with a timestamp. */
  predicate StartsWithStamp(x: string)
  {
    |x| >= |StampShape| && forall k :: 0 <= k < |StampShape| ==> Fits(x[k], StampShape[k])
  }

  /** `m.group()` of the match, if any. */
  function MatchStamp(x: string): (r: Option<string>)
    ensures r.Some? <==> StartsWithStamp(x)
    ensures r.Some? ==> r.value == x[..|StampShape|]
  {
    if StartsWithStamp(x) then Some(x[..|StampShape|]) else None
  }

  /** The pattern spelt out: four, two and two digits separated by `-`, a
      space, then two, two and two digits separated by `:`; the group is the
      19 characters matched. */
  lemma StampPattern(x: string)
    ensures MatchStamp(x).Some? <==>
      && |x| >= 19
      && x[4] == '-' && x[7] == '-' && x[10] == ' ' && x[13] == ':' && x[16] == ':'
      && IsDigit(x[0]) && IsDigit(x[1]) && IsDigit(x[2]) && IsDigit(x[3])
      && IsDigit(x[5]) && IsDigit(x[6]) && IsDigit(x[8]) && IsDigit(x[9])
      && IsDigit(x[11]) && IsDigit(x[12]) && IsDigit(x[14]) && IsDigit(x[15])
      && IsDigit(x[17]) && IsDigit(x[18])
    ensures MatchStamp(x).Some? ==> MatchStamp(x).value == x[..19]
  {
    assert |StampShape| == 19;
  }

  /** `[m.group() for m in (re.match(pattern, x[:20]) for x in lines) if m]`. */
  function Timestamps(lines: seq<string>): (ts: seq<string>)
    ensures |ts| <= |lines|
    ensures forall i :: 0 <= i < |ts| ==> |ts[i]| == |StampShape| && StartsWithStamp(ts[i])
  {
    if |lines| == 0 then []
    else
      var rest := Timestamps(lines[1..]);
      match MatchStamp(Take(lines[0], 20))
      case None => rest
      case Some(t) => [t] + rest
  }

  /** Cutting a line to 20 characters does not change its match, because the
      pattern is 19 characters long. */
  lemma TruncationIrrelevant(x: string)
    ensures MatchStamp(Take(x, 20)) == MatchStamp(x)
  {
    var t := Take(x, 20);
    if StartsWithStamp(x) {
      assert forall k :: 0 <= k < |StampShape| ==> t[k] == x[k];
      assert t[..|StampShape|] == x[..|StampShape|];
    }
    if StartsWithStamp(t) {
      assert forall k :: 0 <= k < |StampShape| ==> t[k] == x[k];
    }
  }

  /** The timestamps of a log are those of its parts, in order. */
  lemma {:induction false} TimestampsConcat(a: seq<string>, b: seq<string>)
    ensures Timestamps(a + b) == Timestamps(a) + Timestamps(b)
  {
    if |a| == 0 {
      assert a + b == b;
    } else {
      assert (a + b)[0] == a[0];
      assert (a + b)[1..] == a[1..] + b;
      TimestampsConcat(a[1..], b);
    }
  }

  /** `timestamps[0]`: the first line that starts with a timestamp supplies
      the processing date; a log without one is an error. */
  function ProcessingDate(lines: seq<string>): (r: Result<string>)
  {
    var ts := Timestamps(lines);
    if |ts| == 0 then Err(NoTimestamp) else Ok(ts[0])
  }

  /** The processing date is the stamp of the first line that has one, and
      there is none exactly when no line starts with a timestamp. */
  lemma {:induction false} ProcessingDateFirst(lines: seq<string>)
    ensures ProcessingDate(lines).Err? <==> forall j :: 0 <= j < |lines| ==> !StartsWithStamp(lines[j])
    ensures ProcessingDate(lines).Ok? ==>
      exists j :: (0 <= j < |lines|
        && StartsWithStamp(lines[j]) && ProcessingDate(lines).value == lines[j][..|StampShape|]
        && forall l :: 0 <= l < j ==> !StartsWithStamp(lines[l]))
  {
    if |lines| > 0 {
      TruncationIrrelevant(lines[0]);
      ProcessingDateFirst(lines[1..]);
      if !StartsWithStamp(lines[0]) {
        assert Timestamps(lines) == Timestamps(lines[1..]);
        if ProcessingDate(lines).Ok? {
          var j :| 0 <= j < |lines[1..]| && StartsWithStamp(lines[1..][j])
            && ProcessingDate(lines[1..]).value == lines[1..][j][..|StampShape|]
            && forall l :: 0 <= l < j ==> !StartsWithStamp(lines[1..][l]);
          assert lines[j + 1] == lines[1..][j];
          assert forall l :: 0 < l < j + 1 ==> lines[l] == lines[1..][l - 1];
        } else {
          assert forall j :: 0 < j < |lines| ==> lines[j] == lines[1..][j - 1];
        }
      }
    }
  }

  // ---------------------------------------------------------------------
  // assets (lines 78-92)

  datatype Role = DataRole | MetadataRole
  datatype MediaType = Cog | PlainText

  datatype Asset = Asset(name: string, href: string, role: Role, mediaType: MediaType)

  /** The ten assets of the table: name, file suffix, role, media type. */
  const AssetTable: seq<(string, string, Role, MediaType)> := [
    ("conncomp", "_conncomp.tif", DataRole, Cog),
    ("corr", "_corr.tif", DataRole, Cog),
    ("dem", "_dem.tif", DataRole, Cog),
    ("lv_phi", "_lv_phi.tif", DataRole, Cog),
    ("lv_theta", "_lv_theta.tif", DataRole, Cog),
    ("unwrapped", "_unw_phase.tif", DataRole, Cog),
    ("wrapped", "_wrapped_phase.tif", DataRole, Cog),
    ("metadata", ".txt", MetadataRole, PlainText),
    ("azimuth_offsets", "_azi_off.tif", MetadataRole, Cog),
    ("range_offsets", "_rng_off.tif", MetadataRole, Cog)
  ]

  /** The asset list for a stem: each row's suffix appended to `gdal_path`. */
  function Assets(gdalPath: string): (assets: seq<Asset>)
    ensures |assets| == |AssetTable|
    ensures forall i :: 0 <= i < |assets| ==> gdalPath <= assets[i].href
  {
    seq(|AssetTable|, i requires 0 <= i < |AssetTable| =>
      var (name, suffix, role, media) := AssetTable[i];
      Asset(name, gdalPath + suffix, role, media))
  }

  /** The ten names are distinct, and so are the ten hrefs; every href is
      the stem followed by the row's suffix. */
  lemma AssetsDistinct(gdalPath: string)
    ensures forall i, j :: 0 <= i < j < |Assets(gdalPath)| ==>
      Assets(gdalPath)[i].name != Assets(gdalPath)[j].name
      && Assets(gdalPath)[i].href != Assets(gdalPath)[j].href
    ensures forall i :: 0 <= i < |Assets(gdalPath)| ==>
      Assets(gdalPath)[i].href == gdalPath + AssetTable[i].1
  {
    var a := Assets(gdalPath);
    forall i, j | 0 <= i < j < |a|
      ensures a[i].name != a[j].name && a[i].href != a[j].href
    {
      SuffixesDistinct(i, j);
      AppendDistinct(gdalPath, AssetTable[i].1, AssetTable[j].1);
    }
  }

  lemma AppendDistinct(g: string, x: string, y: string)
    requires x != y
    ensures g + x != g + y
  {
    assert (g + x)[|g|..] == x;
    assert (g + y)[|g|..] == y;
  }

  lemma SuffixesDistinct(i: nat, j: nat)
    requires i < j < |AssetTable|
    ensures AssetTable[i].0 != AssetTable[j].0 && AssetTable[i].1 != AssetTable[j].1
  {
  }

  /** COG assets are exactly the `.tif` files; the product text file is the
      only plain-text one. */
  lemma AssetMediaTypes(gdalPath: string, i: nat)
    requires i < |AssetTable|
    ensures var a := Assets(gdalPath)[i];
      (a.mediaType == Cog <==> EndsWith(a.href, ".tif"))
      && (a.mediaType == PlainText <==> a.name == "metadata")
  {
    var a := Assets(gdalPath)[i];
    var row := AssetTable[i];
    assert a.href == gdalPath + row.1 && a.mediaType == row.3 && a.name == row.0;
    TableMediaTypes(i);
    EndsWithAppend(gdalPath, row.1, ".tif");
  }

  lemma TableMediaTypes(i: nat)
    requires i < |AssetTable|
    ensures 4 <= |AssetTable[i].1|
    ensures AssetTable[i].3 == Cog <==> EndsWith(AssetTable[i].1, ".tif")
    ensures AssetTable[i].3 == PlainText <==> AssetTable[i].0 == "metadata"
  {
    var row := AssetTable[i];
    var ext := row.1[|row.1| - 4..];
    assert EndsWith(row.1, ".tif") <==> ext == ".tif";
    if i == 7 {
      assert ext == ".txt";
    } else {
      assert ext == ".tif";
    }
  }

  lemma EndsWithAppend(g: string, x: string, tail: string)
    requires |tail| <= |x|
    ensures EndsWith(g + x, tail) == EndsWith(x, tail)
  {
    assert (g + x)[|g + x| - |tail|..] == x[|x| - |tail|..];
  }

  predicate EndsWith(s: string, tail: string)
  {
    |tail| <= |s| && s[|s| - |tail|..] == tail
  }

  // ---------------------------------------------------------------------
  // acquisition dates (lines 123-124)

  /** `granule.split('_')[3]`. */
  function DateField(granule: string): (r: Result<string>)
    ensures r.Err? ==> r.error == MissingField(granule)
  {
    var parts := Split(granule, "_");
    if |parts| < 4 then Err(MissingField(granule)) else Ok(parts[3])
  }

  /** For a granule `a_b_c_d` or `a_b_c_d_...` whose first four fields hold
      no underscore, the date field is `d`. */
  lemma DateFieldOfFields(a: string, b: string, c: string, d: string, rest: string)
    requires !Contains(a, "_") && !Contains(b, "_") && !Contains(c, "_") && !Contains(d, "_")
    requires rest == [] || rest[0] == '_'
    ensures DateField(a + "_" + b + "_" + c + "_" + d + rest) == Ok(d)
  {
    var g := a + "_" + b + "_" + c + "_" + d + rest;
    assert g == a + "_" + (b + "_" + (c + "_" + (d + rest)));
    SplitCons(a, "_", b + "_" + (c + "_" + (d + rest)));
    SplitCons(b, "_", c + "_" + (d + rest));
    SplitCons(c, "_", d + rest);
    if rest == [] {
      assert d + rest == d;
      SplitNone(d, "_");
    } else {
      assert d + rest == d + "_" + rest[1..];
      SplitCons(d, "_", rest[1..]);
    }
  }

  /** A granule of one to three fields joined by `_`, none holding an
      underscore, has no date field: `split('_')[3]` fails. */
  lemma DateFieldMissing(fields: seq<string>)
    requires 1 <= |fields| <= 3
    requires forall i :: 0 <= i < |fields| ==> !Contains(fields[i], "_")
    ensures DateField(Join(fields, "_")) == Err(MissingField(Join(fields, "_")))
  {
    SplitJoin(fields, "_");
  }

  // ---------------------------------------------------------------------
  // the item

  const ReferenceKey := "Reference Granule"
  const SecondaryKey := "Secondary Granule"
  const PassDirectionKey := "Reference Pass Direction"
  const BaselineKey := "Baseline"
  const DemSourceKey := "DEM source"

  /** The fields of the STAC item that come from the strings above. */
  datatype Item = Item(
    id: string, burstId: string, remoteRoot: string,
    startDate: string, endDate: string, processingDate: string,
    passDirection: string, baseline: string, demSource: string,
    granules: seq<string>, assets: seq<Asset>)

  /** `hyp32stac` with its inputs given as values: the product directory
      name, the lines of the product text file, the text of the manifest's
      start relative orbit and the lines of `isce.log`. Failures are
      reported in the order the script meets them. */
  function Hyp3ToStac(outdir: string, metaLines: seq<string>, relativeOrbit: string, logLines: seq<string>): (r: Result<Item>)
    ensures r.Ok? <==>
      && ParseMeta(metaLines).Ok?
      && var meta := ParseMeta(metaLines).value;
      && ReferenceKey in meta && SecondaryKey in meta
      && DateField(meta[ReferenceKey]).Ok? && DateField(meta[SecondaryKey]).Ok?
      && |Timestamps(logLines)| > 0
      && PassDirectionKey in meta && BaselineKey in meta && DemSourceKey in meta
    ensures ParseMeta(metaLines).Err? ==> r == Err(ParseMeta(metaLines).error)
    ensures r.Ok? ==>
      var meta := ParseMeta(metaLines).value;
      var item := r.value;
      && item.id == outdir
      && item.granules == [meta[ReferenceKey], meta[SecondaryKey]]
      && item.burstId == BurstId(relativeOrbit, meta[ReferenceKey])
      && item.remoteRoot == RemoteRoot(item.burstId, outdir)
      && item.startDate == Split(meta[ReferenceKey], "_")[3]
      && item.endDate == Split(meta[SecondaryKey], "_")[3]
      && item.processingDate == Timestamps(logLines)[0]
      && item.passDirection == meta[PassDirectionKey]
      && item.baseline == meta[BaselineKey]
      && item.demSource == meta[DemSourceKey]
      && |item.assets| == |AssetTable|
      && forall i :: 0 <= i < |item.assets| ==>
           item.assets[i].href == RemoteRoot(item.burstId, outdir) + "/" + outdir + AssetTable[i].1
  {
    match ParseMeta(metaLines)
    case Err(e) => Err(e)
    case Ok(meta) =>
      match Lookup(meta, ReferenceKey)
      case Err(e) => Err(e)
      case Ok(reference) =>
        match Lookup(meta, SecondaryKey)
        case Err(e) => Err(e)
        case Ok(secondary) =>
          var burstId := BurstId(relativeOrbit, reference);
          var remoteRoot := RemoteRoot(burstId, outdir);
          var assets := Assets(remoteRoot + "/" + outdir);
          match DateField(reference)
          case Err(e) => Err(e)
          case Ok(start) =>
            match DateField(secondary)
            case Err(e) => Err(e)
            case Ok(end) =>
              match ProcessingDate(logLines)
              case Err(e) => Err(e)
              case Ok(processed) =>
                match Lookup(meta, PassDirectionKey)
                case Err(e) => Err(e)
                case Ok(passDirection) =>
                  match Lookup(meta, BaselineKey)
                  case Err(e) => Err(e)
                  case Ok(baseline) =>
                    match Lookup(meta, DemSourceKey)
                    case Err(e) => Err(e)
                    case Ok(demSource) =>
                      AssetsDistinct(remoteRoot + "/" + outdir);
                      Ok(Item(outdir, burstId, remoteRoot, start, end, processed,
                              passDirection, baseline, demSource, [reference, secondary], assets))
  }
}
