# Burst-pair selection and STAC metadata strings of fufiters

fufiters drives Sentinel-1 burst InSAR processing from GitHub Actions. This
project is a Dafny model of the repository's computational core:

- `scripts/getBurstPairs.py` filters the catalogue's acquisitions by how much
  of the reference burst they cover (at least 0.80). It orders them by start
  time and builds interferogram jobs with one of two strategies:
  - dense: every reference up to the last acquisition of the chosen year,
    paired with its next NPairs neighbours;
  - offset: every reference at least DT years before the last acquisition,
    paired with the acquisition nearest to its time plus DT years.

  It then writes the jobs as a GitHub Actions matrix `{"include": [...]}`.
- `scripts/getBurstList.py` is the older variant. It filters at 0.95, sorts
  the scene names in place and pairs each of the first `len - npairs` names
  with its next `npairs` names.
- `scripts/hyp3isce2stac.py`, function `hyp32stac`, turns a HyP3 ISCE2
  product folder into STAC item fields. It parses the `Key: Value` product
  metadata, builds the ESA burst ID, the S3 paths and the asset hrefs, takes
  the processing date from the first timestamped line of `isce.log`, and
  reads the acquisition dates out of the granule names.

Modules, in dependency order:

- `Text` (`text.dfy`): the Python string semantics the scripts rely on:
  - clamped slicing;
  - `split` on a non-empty separator;
  - `rstrip()` with Python's whitespace set;
  - `zfill`;
  - the code-point order of `<=` on strings.
- `Acquisitions` (`acquisitions.dfy`):
  - the acquisition record and the job record;
  - the overlap filter;
  - the job short name.
- `PairGrid` (`pair_grid.dfy`): the `(r, s)` index pairs that both scripts'
  nested pairing loops visit. It covers which of them are feasible, their
  order and their number. It also defines `Jobs`, which relates a list of
  index pairs to the jobs built from them.
- `JobMatrix` (`job_matrix.dfy`): the matrix string the scripts print, and a
  reader for it that recovers the pair list.
- `BurstPairs` (`burst_pairs.dfy`): `getBurstPairs.py` as imperative code:
  - an in-place insertion sort on an array;
  - the nested dense loops, which collect the skipped attempts;
  - the `iterrows` loop with its `break`;
  - the top-level method.
- `BurstList` (`burst_list.dfy`): `getBurstList.py`: the in-place name sort,
  the fixed-depth loops and the top-level method.
- `StacItem` (`stac_item.dfy`): the string core of `hyp32stac`. Its file
  reads are replaced by parameters holding the lines read.

Inputs that the scripts take from the outside are parameters:

- the acquisitions, each with a scene name, a start time in integer seconds
  and the fraction of the burst footprint it covers;
- the workflow inputs `Year`, `NPairs` and `OFFSETS_DT`;
- the year of a timestamp (`yearOf`);
- "timestamp plus DT years" (`addYears`);
- the product folder name;
- the lines of the product text file and of `isce.log`;
- the relative-orbit text of the SAFE manifest.

Notes on what the code does:

- The offset loop walks forward from the earliest acquisition. It stops at
  the first acquisition less than `365 * DT` days before the last one.
- The dense strategy with no acquisition in the chosen year, including an
  empty list, is a fatal error. Line 83 indexes an empty selection with
  `[-1]` outside the `try`, so no empty pair list is produced.
- When the very first acquisition is already within DT years of the last,
  line 71 reads `refname` before any assignment, which is a fatal error.
  With a positive DT this always happens for a single acquisition.
- The sort is `sort_values` with its default, non-stable algorithm, so the
  order of equal start times is not claimed.
- `get_indexer(method='nearest')` runs on the chronological index. Of two
  equally near timestamps, pandas takes the larger index value, which is the
  later position.
- An offset job can pair a scene with itself. If the nearest acquisition to
  `t + DT` years is the reference itself, the script emits that pair.

## Model

| member | source | states |
|---|---|---|
| Text.Slice | scripts/getBurstPairs.py:79 | `s[lo:hi]` built a character at a time; Text.SliceSpec proves it equals the clamped Python slice |
| Text.SliceSpec | scripts/getBurstPairs.py:79 | `s[lo:hi]` is the characters from `lo` up to `min(hi, len)`, and empty when the clamped bounds cross |
| Text.Take | scripts/hyp3isce2stac.py:73 | `x[:20]` is the first `min(20, len)` characters |
| Text.FindFrom | scripts/hyp3isce2stac.py:47 | the separator search finds the leftmost occurrence at or after the start, or reports that there is none |
| Text.Split | scripts/hyp3isce2stac.py:47 | `split` always yields at least one piece |
| Text.JoinSplit | scripts/hyp3isce2stac.py:47 | joining the pieces of a split with the separator gives the string back |
| Text.SplitPiecesFree | scripts/hyp3isce2stac.py:47 | no piece of a split contains the separator |
| Text.SplitAt | scripts/hyp3isce2stac.py:47 | `(a + sep + b).split(sep)` is `[a]` followed by the pieces of `b` when `sep` first occurs right after `a` |
| Text.SplitCons | scripts/hyp3isce2stac.py:123 | the same for a one-character separator that `a` does not contain |
| Text.SplitNone | scripts/hyp3isce2stac.py:123 | a string without the separator splits into itself alone |
| Text.SplitJoin | scripts/hyp3isce2stac.py:123 | splitting the join of separator-free fields by a one-character separator gives the fields back |
| Text.RStrip | scripts/hyp3isce2stac.py:46 | `rstrip()` gives a prefix that does not end in whitespace, and everything it removed is whitespace |
| Text.ZFill | scripts/hyp3isce2stac.py:56 | `zfill(w)` has length `max(len, w)` and leaves a string already `w` long unchanged; Text.ZFillDigits adds the digit case |
| Text.ZFillDigits | scripts/hyp3isce2stac.py:56 | `zfill(w)` pads a digit string with zeros to length `max(len, w)`, keeps it as the suffix and keeps its decimal value |
| Text.LeadingZeros | scripts/hyp3isce2stac.py:56 | leading zeros do not change a decimal value |
| Text.LexLeRefl | scripts/getBurstList.py:45 | string `<=` is reflexive |
| Text.LexLeTotal | scripts/getBurstList.py:45 | any two strings are comparable, so the name sort is well defined |
| Text.LexLeTrans | scripts/getBurstList.py:45 | string `<=` is transitive |
| Text.LexLeAntisym | scripts/getBurstList.py:45 | strings that are `<=` both ways are equal |
| Text.PrefixMultiset | scripts/getBurstPairs.py:57-58 | two permutations of each other that agree from some position on agree there as sequences and permute each other before it |
| Acquisitions.FilterByOverlap | scripts/getBurstPairs.py:53-54 | an acquisition survives the query exactly when it was in the input and its overlap is at least the threshold |
| Acquisitions.FilterConcat | scripts/getBurstPairs.py:53-54 | the filter distributes over concatenation, so the survivors keep their relative order |
| Acquisitions.FilterMultiset | scripts/getBurstList.py:40-41 | every copy of a surviving acquisition is kept, and none of a dropped one |
| Acquisitions.Names | scripts/getBurstPairs.py:61 | `sceneName.to_list()` has one name per row, in row order |
| Acquisitions.ShortName | scripts/getBurstPairs.py:79 | `f'{ref[lo:hi]}_{sec[lo:hi]}'`; Acquisitions.ShortNameFields proves it splits back into the two date slices |
| Acquisitions.ShortNameFields | scripts/getBurstPairs.py:79 | a job name splits back on `_` into the two date slices of the scene names |
| Acquisitions.MakePair | scripts/getBurstPairs.py:89-90 | the job record of reference, secondary and short name; JobMatrix.MakePairNoQuote and BurstPairs.JobsReadBack prove it survives the matrix round trip |
| PairGrid.Depth | scripts/getBurstList.py:52 | `range(1, NPAIRS + 1)` runs over `max(NPAIRS, 0)` skips; PairGrid.GridCount and BurstList.ListCount count the attempts it gives |
| PairGrid.Row | scripts/getBurstPairs.py:85-91 | the inner loop visits skips `1..m` of one reference, and each visited attempt has the feasibility asked for |
| PairGrid.Grid | scripts/getBurstPairs.py:84-92 | the nested loops visit references below `rows` and skips `1..m`, and each visited attempt has the feasibility asked for |
| PairGrid.RowMember | scripts/getBurstPairs.py:85-91 | an attempt is in a row exactly when it has that reference, a skip in `1..m` and the asked feasibility |
| PairGrid.GridMember | scripts/getBurstPairs.py:84-92 | an attempt is in the grid exactly when its reference is below `rows`, its skip is in `1..m` and `r + s < len` has the asked value |
| PairGrid.RowIncreasing | scripts/getBurstPairs.py:85-91 | a row lists its skips strictly ascending |
| PairGrid.GridIncreasing | scripts/getBurstPairs.py:84-92 | the grid is strictly increasing r-major then s ascending, so no attempt appears twice |
| PairGrid.RowCount | scripts/getBurstPairs.py:85-91 | a row has `min(m, len - 1 - r)` feasible attempts, and feasible plus infeasible is `m` |
| PairGrid.GridCount | scripts/getBurstPairs.py:84-92 | the feasible attempts number the sum over `r` of `min(m, len - 1 - r)`, and feasible plus infeasible is `rows * m` |
| PairGrid.FeasibleCountFull | scripts/getBurstList.py:51-54 | when `rows + m <= len` every reference has all `m` secondaries |
| PairGrid.AllFeasible | scripts/getBurstList.py:51-54 | when `rows + m <= len` no attempt is infeasible and there are exactly `rows * m` of them |
| PairGrid.FiveAcquisitionsDepthTwo | scripts/getBurstPairs.py:84-92 | five acquisitions paired two deep from all five references give seven feasible and three skipped attempts |
| PairGrid.JobsConcat | scripts/getBurstPairs.py:90 | appending the jobs of one loop to those of another lines up with concatenating their index pairs |
| JobMatrix.ListJson | scripts/getBurstPairs.py:95 | `json.dumps(pairs)` is bracketed by `[` and `]`; JobMatrix.ListRoundTrip proves it reads back as the pairs |
| JobMatrix.MatrixJson | scripts/getBurstList.py:57 | the matrix starts with `{"include":` and ends with `}`; JobMatrix.MatrixRoundTrip proves it reads back as exactly the pairs |
| JobMatrix.ParseObjectCat | scripts/getBurstPairs.py:95 | one serialised job followed by anything reads back as that job and the rest |
| JobMatrix.ParseItemsCat | scripts/getBurstPairs.py:95 | the serialised items of a non-empty job list followed by `]` read back as the list |
| JobMatrix.ListRoundTrip | scripts/getBurstPairs.py:95 | `json.dumps(pairs)` reads back as the pairs, the empty list included |
| JobMatrix.MatrixRoundTrip | scripts/getBurstPairs.py:95 | the `{"include":...}` matrix reads back as exactly the pairs, in order |
| JobMatrix.MakePairNoQuote | scripts/getBurstPairs.py:89-90 | a job built from quote-free scene names is quote-free |
| BurstPairs.SortByTime | scripts/getBurstPairs.py:57-58 | the sorted acquisitions ascend by start time and are a permutation of the input |
| BurstPairs.SinkByTime | scripts/getBurstPairs.py:57-58 | one insertion step extends the sorted prefix by one element, permutes that prefix and leaves the positions after it unchanged |
| BurstPairs.MoveDownByTime | scripts/getBurstPairs.py:57-58 | the swap loop of the step: the prefix up to `i` ends ascending, the array is permuted and no position after `i` changes |
| BurstPairs.LastIndexOfYear | scripts/getBurstPairs.py:83 | the last position whose year is `START`: its year matches and no later one does; absent exactly when no position matches |
| BurstPairs.DensePairs | scripts/getBurstPairs.py:84-92 | the jobs are those of the feasible attempts of references `0..e` with skips `1..NPairs`, in loop order; the skipped attempts are exactly the infeasible ones |
| BurstPairs.DenseRow | scripts/getBurstPairs.py:85-92 | for one reference, the jobs are its feasible skips and the skipped attempts are those past the end |
| BurstPairs.Nearest | scripts/getBurstPairs.py:76 | the nearest-index lookup returns a valid position whose start time is at least as close to the target as every other, and strictly closer than every later one, so ties go to the later position as pandas' larger-index rule gives |
| BurstPairs.NearestPrefersLater | scripts/getBurstPairs.py:76 | with start times on days 0, 300, 430 and 800, the target on day 365 is equally near days 300 and 430, and day 430 is chosen |
| BurstPairs.TooRecent | scripts/getBurstPairs.py:69-70 | `gf.index[-1] - index < Timedelta(days=365*DT)` in seconds; BurstPairs.OffsetReferencesExactly proves which positions pass it |
| BurstPairs.ReferenceCount | scripts/getBurstPairs.py:68-72 | the loop's references are the positions before the first one within DT years of the last |
| BurstPairs.OffsetPair | scripts/getBurstPairs.py:74-80 | the job of one reference and the acquisition nearest to its time plus DT years; BurstPairs.OffsetJobs and BurstPairs.OffsetSecondaryNotEarlier prove its properties |
| BurstPairs.OffsetSpec | scripts/getBurstPairs.py:68-80 | the offset result as a value: the unbound-`refname` error, or one job per leading reference; BurstPairs.OffsetPairs, BurstPairs.ReferenceCountIs and BurstPairs.OffsetJobs relate it to the loop and prove its properties |
| BurstPairs.OffsetPairs | scripts/getBurstPairs.py:65-80 | the `iterrows` loop with its `break` yields the offset specification: the jobs of the leading references, or the unbound-`refname` error when the first acquisition already fails the test |
| BurstPairs.ReferenceCountIs | scripts/getBurstPairs.py:68-72 | the reference count is determined by where the loop stops |
| BurstPairs.OffsetReferencesExactly | scripts/getBurstPairs.py:68-72 | on the chronological list a position is a reference exactly when it is at least `365 * DT` days before the last acquisition |
| BurstPairs.LastNeverReference | scripts/getBurstPairs.py:69-72 | with a positive DT the last acquisition is never a reference |
| BurstPairs.SingleAcquisitionFails | scripts/getBurstPairs.py:70-71 | a single acquisition with a positive DT ends in the unbound-`refname` error |
| BurstPairs.OffsetSecondaryNotEarlier | scripts/getBurstPairs.py:75-77 | a secondary found by nearest search is never earlier than its reference when the offset does not move time backwards |
| BurstPairs.OffsetJobs | scripts/getBurstPairs.py:68-80 | offset job `k` has reference `acqs[k]`, which is at least DT years before the last acquisition, and a secondary nearest to `t_k + DT` years |
| BurstPairs.OffsetSelfPair | scripts/getBurstPairs.py:75-80 | across a coverage gap the nearest secondary can be the reference itself, giving a self-pair |
| BurstPairs.DenseJobCount | scripts/getBurstPairs.py:84-92 | the dense strategy makes the sum over `r <= e` of `min(NPairs, len - 1 - r)` jobs |
| BurstPairs.DenseJobsChronological | scripts/getBurstPairs.py:84-90 | dense job `k` pairs position `r <= e` with position `r + s`, `1 <= s <= NPairs`, and its secondary is never earlier than its reference |
| BurstPairs.JobsReadBack | scripts/getBurstPairs.py:95-96 | with quote-free scene names the printed matrix reads back as exactly the jobs |
| BurstPairs.UsesOffsets | scripts/getBurstPairs.py:65 | `if DT:` holds for a present, non-zero DT; BurstPairs.GetBurstPairs and BurstPairs.Pairing use it to choose the strategy |
| BurstPairs.GetBurstPairs | scripts/getBurstPairs.py:53-96 | filter, sort, name list, strategy switch (`if DT:` is false for a missing or zero DT), jobs, matrix and count, with both strategies' error cases |
| BurstPairs.Pairing | scripts/getBurstPairs.py:64-92 | the chosen strategy's jobs and skipped attempts, or its error |
| BurstPairs.DenseStrategy | scripts/getBurstPairs.py:83-92 | an error exactly when no acquisition is in `START`; otherwise the dense jobs up to the last one in that year |
| BurstList.SortNames | scripts/getBurstList.py:44-45 | `burstIDs.sort()` leaves the array ascending in string order and a permutation of the names |
| BurstList.SinkName | scripts/getBurstList.py:45 | one insertion step extends the sorted prefix by one element, permutes that prefix and leaves the positions after it unchanged |
| BurstList.MoveDownName | scripts/getBurstList.py:45 | the swap loop of the step: the prefix up to `i` ends ascending, the array is permuted and no position after `i` changes |
| BurstList.References | scripts/getBurstList.py:51 | `range(len - NPAIRS)` runs over `max(len - NPAIRS, 0)` references; BurstList.ListCount and BurstList.ListAttempts prove what they give |
| BurstList.ListPairs | scripts/getBurstList.py:50-56 | the jobs are those of all attempts of references below `len - npairs` and skips `1..npairs`, in loop order |
| BurstList.ListRow | scripts/getBurstList.py:52-56 | the inner loop of a reference below `len - npairs` builds all `npairs` jobs |
| BurstList.GetBurstList | scripts/getBurstList.py:40-58 | the names are a sorted permutation of the filtered scene names; the jobs, matrix and count follow from them |
| BurstList.NothingSkipped | scripts/getBurstList.py:51-54 | no attempt of the loops is ever out of range |
| BurstList.ListCount | scripts/getBurstList.py:51-52 | there are `npairs * (len - npairs)` jobs when `npairs >= 1` and `len > npairs`, and none otherwise |
| BurstList.ListJobsOrdered | scripts/getBurstList.py:51-56 | on the sorted names every job's reference is `<=` its secondary |
| BurstList.ListAttempts | scripts/getBurstList.py:51-54 | reference `r` is paired with `r + s` exactly when `r + npairs < len` and `1 <= s <= npairs` |
| StacItem.ParseLine | scripts/hyp3isce2stac.py:46-47 | one line right-stripped and split on `": "`, accepted when it has exactly two parts |
| StacItem.ParseLineParts | scripts/hyp3isce2stac.py:46-47 | an accepted line is its stripped text cut at its only `": "`: key, separator and value give it back, and neither part holds the separator |
| StacItem.Entries | scripts/hyp3isce2stac.py:46-47 | the lines give entries exactly when every one splits into two parts; otherwise the error names the first line that does not |
| StacItem.ToMap | scripts/hyp3isce2stac.py:47 | `dict(entries)`, later entries overriding earlier ones; StacItem.DictKeys and StacItem.DictLastWins prove its keys and values |
| StacItem.ParseMeta | scripts/hyp3isce2stac.py:45-47 | the metadata dict or the first malformed line; StacItem.MetaLastWins, StacItem.MetaLookup and StacItem.MetaLookupLast prove what it holds |
| StacItem.DictKeys | scripts/hyp3isce2stac.py:47 | the keys of `dict(entries)` are exactly the entries' keys |
| StacItem.DictLastWins | scripts/hyp3isce2stac.py:47 | for a duplicate key the last entry's value wins |
| StacItem.MetaLastWins | scripts/hyp3isce2stac.py:45-47 | every well-formed metadata line's key is present with the value of the last line that carries it |
| StacItem.MetaLineRoundTrip | scripts/hyp3isce2stac.py:46-47 | `key: value` parses to `(key, value)` when neither contains `": "` and the value is non-empty without trailing whitespace |
| StacItem.KeyPrefixFree | scripts/hyp3isce2stac.py:47 | no `": "` starts inside a key free of it |
| StacItem.EmptyValueRejected | scripts/hyp3isce2stac.py:46-47 | a line with an empty value is rejected, because `rstrip` leaves `key:` |
| StacItem.SecondSeparatorRejected | scripts/hyp3isce2stac.py:47 | a value that itself holds `": "` is rejected |
| StacItem.MetaLookup | scripts/hyp3isce2stac.py:45-50 | `meta[key]` on parsed metadata succeeds exactly when some line carries the key, and otherwise fails with the missing-key error naming it |
| StacItem.MetaLookupLast | scripts/hyp3isce2stac.py:45-50 | `meta[key]` gives the value of the last line that carries the key |
| StacItem.BurstId | scripts/hyp3isce2stac.py:56-57 | `zfill(3)` of the orbit then `ref[2:13]`; StacItem.BurstIdShape proves its shape |
| StacItem.BurstIdShape | scripts/hyp3isce2stac.py:56-57 | for an orbit of at most three digits the burst ID is 14 characters: the orbit zero-padded to three with the same value, then `ref[2:13]` |
| StacItem.Prefix | scripts/hyp3isce2stac.py:42 | `outdir[14:31]` is the characters from 14 up to `min(31, len)`, empty for a name of at most 14 characters |
| StacItem.RemoteRoot | scripts/hyp3isce2stac.py:66 | `s3://fufiters/{burst}/{prefix}/{outdir}`; StacItem.BucketSegments and StacItem.GdalPathSegments prove its path segments |
| StacItem.GdalPath | scripts/hyp3isce2stac.py:67 | `{remote_root}/{outdir}`; StacItem.GdalPathSegments proves its path segments |
| StacItem.GdalPathSegments | scripts/hyp3isce2stac.py:66-67 | the asset stem has the path segments `s3:`, empty, `fufiters`, burst ID, `outdir[14:31]`, `outdir`, `outdir` |
| StacItem.BucketSegments | scripts/hyp3isce2stac.py:66 | the bucket URL contributes the segments `s3:`, empty and `fufiters` |
| StacItem.PrefixNoSlash | scripts/hyp3isce2stac.py:42 | `outdir[14:31]` holds no `/` when `outdir` holds none |
| StacItem.StampPattern | scripts/hyp3isce2stac.py:71-74 | `re.match(pattern, x)` succeeds exactly when `x` has at least 19 characters, `-` at 4 and 7, a space at 10, `:` at 13 and 16 and digits at every other position below 19; the group is `x[:19]` |
| StacItem.Timestamps | scripts/hyp3isce2stac.py:73-75 | the list has at most one stamp per line, and every entry is a 19-character stamp |
| StacItem.TruncationIrrelevant | scripts/hyp3isce2stac.py:73-74 | cutting a line to 20 characters does not change its match |
| StacItem.TimestampsConcat | scripts/hyp3isce2stac.py:75 | the stamps of a log are those of its parts, in line order |
| StacItem.ProcessingDate | scripts/hyp3isce2stac.py:130 | `timestamps[0]`, failing on an empty list; StacItem.ProcessingDateFirst proves which stamp it is |
| StacItem.ProcessingDateFirst | scripts/hyp3isce2stac.py:71-75 | `timestamps[0]` (line 130) is the stamp of the first timestamped line, and fails exactly when no line starts with a stamp |
| StacItem.Assets | scripts/hyp3isce2stac.py:78-92 | the ten assets all start with `gdal_path` |
| StacItem.AssetsDistinct | scripts/hyp3isce2stac.py:78-92 | every href is `gdal_path` plus the row's suffix; the ten names are distinct, and so are the ten hrefs |
| StacItem.SuffixesDistinct | scripts/hyp3isce2stac.py:79-91 | the table's names and suffixes are pairwise distinct |
| StacItem.AssetMediaTypes | scripts/hyp3isce2stac.py:78-92 | an asset is a COG exactly when its href ends in `.tif`, and plain text exactly when it is the metadata file |
| StacItem.TableMediaTypes | scripts/hyp3isce2stac.py:79-91 | a table row is a COG exactly when its suffix ends in `.tif`, and plain text exactly when it is the metadata row |
| StacItem.DateField | scripts/hyp3isce2stac.py:123-124 | the failure of `split('_')[3]` names the granule |
| StacItem.DateFieldOfFields | scripts/hyp3isce2stac.py:123-124 | the date field of `a_b_c_d` or `a_b_c_d_...` is `d` |
| StacItem.DateFieldMissing | scripts/hyp3isce2stac.py:123-124 | a granule of one, two or three `_`-separated fields has no date field, and the error names it |
| StacItem.Hyp3ToStac | scripts/hyp3isce2stac.py:41-145 | an item exists exactly when the metadata parses, both granule keys are present, both granules have a date field, the log has a stamp and the three property keys are present; a metadata error propagates; the item's id, granules, burst ID, remote root, dates, processing date, properties and asset hrefs are as the script builds them |

## Left out

- Network and file I/O: the `asf_search` queries, the parquet burst map
  download, the `GITHUB_OUTPUT` writes, `glob`, the product file and log
  reads, the SAFE manifest XML and `rasterio`. Their results are parameters.
- Environment variables. The workflow inputs are the `Config` value and the
  `npairs` parameter. A non-integer `OFFSETS_DT` is modelled as absent.
- Footprint geometry (the Shapely intersection area). Overlap is a given real
  value per acquisition.
- pandas datetimes. Start times are integer seconds. The year of a time and
  `DateOffset(years=DT)` are the function parameters `yearOf` and `addYears`.
- BurstPairs.SortByTime: no claim of stability or of the order of equal
  start times, because the script's default quicksort promises none.
- BurstPairs.OffsetSecondaryNotEarlier: requires only that `addYears` does
  not move a time backwards, instead of `t + 365 * DT` days, which is all the
  proof needs.
- The `get_indexer` failure on a datetime index with duplicate entries is not
  modelled.
- The messages the scripts print, and the `BURST_IDS` line format. The
  reported name list is a sequence.
- JobMatrix.MatrixRoundTrip: holds for names without `"`. The emitter writes
  strings unescaped, which is what `json.dumps` writes for Sentinel-1 scene
  names; escaping of other characters is not modelled.
- StacItem.Timestamps: `\d` is an ASCII digit. Python's `re` also accepts
  other Unicode decimal digits in a `str` pattern.
- StacItem.Hyp3ToStac: the dates and the processing date are returned as the
  strings the script reads. Their conversion by `str_to_datetime` and
  `isoformat()` into `...Z` strings, and the failures of that conversion,
  are not modelled.
- pystac Item and Collection construction, the projection properties, the
  collection constants and `create_collection` are not modelled.
- The two loops that append to `pystac_assets` and call `item.add_asset` are
  not modelled: they only copy the asset table into pystac objects.
- `scripts/getBurstList.py` as shown is not valid Python, and the model
  repairs it as evidently intended:
  - the workflow placeholder `${{ inputs.npairs }}` stands in the loop
    bounds, so the model reads `npairs` as an integer parameter;
  - the indentation of lines 34-38, 52-56 and 61-62 is lost, so the model
    nests the loops;
  - lines 40-41 and 44 read `gf`, which the script never assigns (line 23
    assigns only `results`), so as written it stops with a NameError. The
    model filters and names the search results, as `getBurstPairs.py` does
    with its frame.
- `scripts/findSLCs.py`, `scripts/findBurstIDs.py` and
  `scripts/getRandomPair.py` are not part of this model. They are catalogue
  searches, maps and random sampling.
