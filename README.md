# ranges — a verified model of the range-map collection and its TSV format

The Go package `ranges` keeps a **collection** of taxon distribution ranges
over one isolatitude **pixelation** of the earth. Each **taxon** is stored
under its canonical name. It has a range **type**: `points` is a set of
presence pixels, each at density 1, and `range` is a density per pixel scaled
so that the largest is 1. It also has an age in years and a map from pixel id
to density.

The collection is edited with `Add`, `Set` and `Delete` and queried with
`HasTaxon`, `Age`, `Type`, `Range` and `Taxa`. It is read from, and written
to, a tab-separated file with the columns `taxon`, `type`, `age`, `equator`,
`pixel` and `density`, through `ReadTSV` and `Collection.TSV`.

The model is written in Dafny, in these modules:

- `Names` (names.dfy): `canon`, the canonical form of a taxon name. White
  space is collapsed with `strings.Fields` and `strings.Join`, the name is
  lower-cased, and its first letter is upper-cased. The fields are pinned
  down completely: a blank string has none, a run without white space is
  one field, and a run of white space splits the fields of what is on
  either side. So extra white space never changes a canonical name.
- `Numerals` (numerals.dfy): `strconv.ParseInt`, `Atoi`, `FormatInt` and
  `Itoa` on 64-bit integers.
- `Sorting` (sorting.dfy): `slices.Sort`, as an insertion sort proved to
  return a sorted permutation. It also holds the lexicographic order of Go
  strings and `Ordered`, the increasing sequence of a finite set.
- `Ranges` (ranges.dfy): the `Collection` class. Its field `taxa` is the
  map from canonical name to `Taxon`, and its methods update it in place.
  The pure functions `WithPoint`, `WithRange` and `Without` state the new
  map, and lemmas show that every operation keeps the collection well
  formed.
- `Tsv` (io.dfy): `ReadTSV` and `TSV` as methods with one loop per loop of
  the Go code. Each is proved equal to a specification function:
  - `Decode`, which reads the records row by row (`Step`, `Run`) and then
    rescales;
  - `Encode`, which gives the header, then each taxon in name order, one
    record per pixel in increasing pixel order.

  The main theorem is `RoundTrip`: decoding what `TSV` writes gives back the
  collection. It assumes a well-formed, non-empty collection whose taxa all
  have pixels and whose range taxa are normalised, and whose range densities
  survive the float codec (`ExactIn`).
  Three edge cases are proved as lemmas. An empty collection reads back as
  the no-data error (`EmptyNoData`). A pixel listed twice yields a
  non-normalised range (`RepeatedPixel`). Every decoded collection is well
  formed, with range densities at most 1 (`DecodeWellFormed`).

Things supplied from outside are parameters:

- the pixelation, a datatype with the equator, the number of pixels and the
  point-to-pixel function;
- `earth.NewPixelation`, as `newPixelation`;
- float parsing and formatting, as `parseFloat` and `formatFloat`.

A file is modelled at the record level, as `seq<seq<string>>` whose first
record is the header.

## Model

| member | source | states |
|---|---|---|
| Names.Canon | ranges.go:240-248 | the canonical name is empty exactly when the name is blank; otherwise its first letter is not lower-case and no later letter is upper-case |
| Names.Words | ranges.go:241 | `strings.Fields`: every field is a non-empty run without white space, and there are none exactly when the string is blank |
| Names.IsSpace | ranges.go:241 | the white space of `strings.Fields`: Go's `unicode.IsSpace`, the ASCII tab, newline, vertical tab, form feed, carriage return and space plus U+0085, U+00A0 and the Unicode space separators |
| Names.Join | ranges.go:241 | `strings.Join(ws, " ")`: the words in order with one space between neighbours and none at the ends |
| Names.Collapse | ranges.go:241 | the first step of `canon`: the fields of the name joined by single spaces |
| Names.Lower | ranges.go:245 | `strings.ToLower`: the same length, each character lower-cased and white space left alone |
| Names.Capitalize | ranges.go:246-247 | upper-cases the first character and keeps the rest |
| Names.WordsKeepText | ranges.go:241 | the fields, written one after another, are exactly the non-space characters of the name in their original order |
| Names.WordsOfWord | ranges.go:241 | a run without white space is a single field |
| Names.WordsSplit | ranges.go:241 | a non-empty run of white space separates fields: the fields of `a + w + b` are those of `a` followed by those of `b` |
| Names.WordsBlankPrefix | ranges.go:241 | leading white space adds no field |
| Names.CanonWidenedSpace | ranges.go:240-248 | widening or narrowing a run of white space inside a name does not change its canonical form |
| Names.CanonTrimmed | ranges.go:240-248 | blank text before or after a name does not change its canonical form |
| Names.CanonNormal | ranges.go:240-248 | a canonical name has no leading or trailing space, and each space is a single ' ' between two words |
| Names.JoinWordsOfNormal | ranges.go:241 | collapsing the white space of a normally spaced string gives the string back |
| Names.CanonIdempotent | ranges.go:240-248 | a canonical name is its own canonical form, so stored keys are stable |
| Names.LowerCanon | ranges.go:245-247 | lower-casing a canonical name gives the lower-cased collapsed name |
| Names.CanonSameKey | ranges.go:240-248 | two names reach the same taxon exactly when their collapsed forms agree up to case |
| Numerals.ParseInt | io.go:121-124 | an accepted integer is an optional sign followed by at least one digit and digits only, and its value is that of the digits, negated after a minus sign; a well-formed numeral is accepted exactly when its value fits in 64 bits |
| Numerals.ParseFormatInt | io.go:207-226 | every 64-bit integer written by `FormatInt`/`Itoa` is read back unchanged by `ParseInt`/`Atoi` |
| Numerals.FormatInt | io.go:207-226 | `strconv.FormatInt(n, 10)` and `Itoa`: a minus sign for a negative number, then its decimal digits without leading zeros |
| Sorting.BeforeOrder | ranges.go:200 | Go's `<` on strings is irreflexive, transitive and total |
| Sorting.LeastExists | ranges.go:200 | every non-empty finite set of names or pixels has a least element under a strict total order |
| Sorting.Ordered | ranges.go:195-203 | the elements of a finite set as a strictly increasing sequence, holding exactly the members of the set |
| Sorting.IncreasingUnique | ranges.go:200 | two strictly increasing sequences with the same elements are equal, so the sorted order is unique |
| Sorting.SortedOnceIsOrdered | ranges.go:195-203 | a sorted sequence holding each member of a set once is the set's increasing sequence |
| Sorting.InsertSorted | ranges.go:200 | inserting an element after those it does not precede keeps a sequence sorted |
| Sorting.Sort | ranges.go:200 | `slices.Sort`: the result is sorted and is a permutation of the input |
| Ranges.TypeName | ranges.go:25-38 | the text of a range type: `points` or `range` |
| Ranges.Pixelation.Pixel | ranges.go:81 | the pixel of a point lies in the pixelation |
| Ranges.MaxOf | ranges.go:177-182 | the running maximum starting from 0: not negative, at least every density, and either 0 or one of the densities |
| Ranges.MaxOfUnique | ranges.go:177-182 | any value with the three properties of the maximum is the maximum |
| Ranges.MaxOfAdd | io.go:166-169 | a new pixel raises the maximum to its density exactly when that density is larger |
| Ranges.NormalisedMax | ranges.go:131-138 | the maximum of a non-empty normalised range is 1 |
| Ranges.Scale | ranges.go:184-190 | dividing every density keeps exactly the same pixels |
| Ranges.ScaleByMaxNormalises | ranges.go:153-159 | dividing by the maximum leaves every density at most 1 and one of them exactly 1 |
| Ranges.ScaleInverse | ranges.go:189 | a scaled density times the divisor is the original density |
| Ranges.WithPoint | ranges.go:62-83 | `Add` on the taxa: other taxa are untouched; a blank name or a range taxon changes nothing; a new taxon is a points taxon of age 0 with the one pixel; an existing points taxon gains the pixel at 1 and keeps everything else |
| Ranges.WithPointIdempotent | ranges.go:62-83 | adding the same point a second time leaves the taxa as the first addition left them, so `Add` is idempotent for a repeated point |
| Ranges.WithRange | ranges.go:160-191 | `Set` on the taxa: other taxa are untouched; the taxon becomes a range taxon of the given age whose map is the input divided by its maximum, and it is normalised |
| Ranges.Without | ranges.go:104-111 | `Delete` on the taxa: the name is gone and every other taxon is untouched |
| Ranges.WithPointWellFormed | ranges.go:62-83 | adding a point inside the pixelation keeps every stored taxon keyed by its canonical name, inside the pixelation, and points at density 1 |
| Ranges.WithRangeWellFormed | ranges.go:160-191 | setting a range inside the pixelation keeps the collection well formed |
| Ranges.StoredAt | ranges.go:68-76 | replacing one stored taxon of a well-formed collection keeps it well formed |
| Ranges.SortedNames | ranges.go:195-203 | the taxon names strictly increasing, exactly the keys of the collection |
| Ranges.SortedPixels | io.go:213-217 | the pixel ids strictly increasing, exactly the pixels of the range |
| Ranges.PixelOrder | io.go:217 | `<` on pixel ids is a strict total order |
| Ranges.Collection.constructor | ranges.go:49-54 | `New`: the given pixelation and no taxa |
| Ranges.Collection.HasTaxon | ranges.go:115-123 | true exactly when the canonical name is not blank and is a key |
| Ranges.Collection.Age | ranges.go:89-101 | the stored age of a present taxon, 0 otherwise |
| Ranges.Collection.Type | ranges.go:206-218 | present exactly when the taxon is, and then its stored type |
| Ranges.Collection.Range | ranges.go:139-151 | present exactly when the taxon is, and then its stored map |
| Ranges.Collection.Add | ranges.go:62-83 | the new taxa are `WithPoint` of the old at the point's pixel; a range taxon is unchanged; otherwise the taxon is a points taxon holding that pixel at 1; the collection stays well formed |
| Ranges.Collection.Set | ranges.go:160-191 | the new taxa are `WithRange` of the old; the taxon becomes a range taxon of the given age over the same pixels; the collection stays well formed |
| Ranges.Collection.Delete | ranges.go:104-111 | the new taxa are `Without` the canonical name (unchanged for a blank name), and the taxon is no longer present |
| Ranges.Collection.Taxa | ranges.go:195-203 | the names of all taxa, strictly increasing, each once, and all of them |
| Ranges.LargestDensity | ranges.go:177-182 | the first loop of `Set` computes the maximum `MaxOf` |
| Ranges.Divide | ranges.go:184-190 | the second loop of `Set` computes `Scale` |
| Ranges.PointLands | ranges.go:68-82 | the in-place steps of `Add` that reach the point store compute `WithPoint` |
| Tsv.Columns | io.go:68-72 | each lower-cased header name maps to the position of its last occurrence, and nothing else is mapped |
| Tsv.FirstMissing | io.go:73-77 | no name is missing exactly when every required column is present; otherwise the first absent required column |
| Tsv.RowType | io.go:107-118 | a type is accepted exactly when it is `points`, `range` or empty in any letter case, and it is a range exactly for `range` |
| Tsv.ReadHeader | io.go:64-72 | the header loop computes `Columns` |
| Tsv.CheckFields | io.go:73-77 | the check loop finds `FirstMissing` |
| Tsv.ReadRows | io.go:81-170 | the row loop computes `Run`: every row in order, stopping at the first error |
| Tsv.ScaleRanges | io.go:175-188 | succeeds exactly when no range taxon has a zero maximum, and then the taxa are `Rescale` of the old |
| Tsv.ReadTSV | io.go:59-191 | fails exactly when `Decode` fails, with the same error; otherwise it returns a new collection with `Decode`'s pixelation and taxa, which is valid when the pixelations are |
| Tsv.Decode | io.go:59-191 | what `ReadTSV` computes: checks the header for the required fields, then reads each row in order (equator, type, age, name, pixel, density) and stops at the first error; a blank name only starts the collection; no collection at the end is the no-data error; finally divides each range by its running maximum |
| Tsv.Run | io.go:81-170 | the row loop: each row read in turn from the state the previous one left, stopping at the first error |
| Tsv.Step | io.go:81-170 | one row: its width, then equator, type and age checked in that order, then a blank name only begins the collection and any other name records one pixel |
| Tsv.Begin | io.go:95-105 | the first row that passes the equator check fixes the pixelation and creates the collection, which later rows keep |
| Tsv.RowPixelation | io.go:91-101 | the equator must be an integer; the pixelation is the given one or is built from that equator, and must have that equator |
| Tsv.Existing | io.go:131-146 | the taxon already read under the name, or a new empty one of the row's type and age |
| Tsv.Record | io.go:131-169 | a named row: the type and age must agree with the taxon's earlier rows, the pixel must be an integer below the pixelation's length, the density must parse; the pixel is set to that density and the taxon's running maximum raised to it |
| Tsv.Density | io.go:157-165 | a points row always has density 1; a range row's density is its parsed field |
| Tsv.MaxFor | io.go:167 | the running maximum of a taxon, 0 before its first row |
| Tsv.Rescaled | io.go:175-188 | a range taxon has every density divided by its maximum, and is left as it is when that maximum is 1; a points taxon is unchanged |
| Tsv.Rescale | io.go:175-188 | every taxon read, rescaled by its own running maximum |
| Tsv.RecordShape | io.go:131-166 | an accepted row with a name agrees with the taxon's type and age, has a pixel below the pixelation's length and a density, and sets that one pixel |
| Tsv.SetPixelWellFormed | io.go:131-166 | setting one pixel as a row does keeps the collection well formed |
| Tsv.RecordBounded | io.go:166-169 | every density stays at most its taxon's running maximum, which is positive once recorded |
| Tsv.RecordSound | io.go:126-169 | the taxon part of a row keeps the reading state sound |
| Tsv.RowPixelationValid | io.go:91-101 | the pixelation of a row is the given one, or one the library builds, and it is valid |
| Tsv.StepShape | io.go:81-170 | an accepted row either only starts the collection (blank name) or records one pixel, after reading equator, type and age in that order |
| Tsv.StepSound | io.go:81-170 | one row keeps the reading state sound |
| Tsv.RunSound | io.go:81-170 | all rows keep the reading state sound |
| Tsv.RescaleSound | io.go:175-188 | the final scaling keeps the collection well formed and brings each range density to at most 1 |
| Tsv.DecodeWellFormed | io.go:59-191 | a collection read from any file is well formed, and each range density is at most 1 |
| Tsv.RunAppend | io.go:81-170 | reading two blocks of rows is reading the first, then the second from where it stopped |
| Tsv.HeaderColumns | io.go:21-28 | the header `TSV` writes gives every required column at its own position |
| Tsv.TypeNameRoundTrip | io.go:107-118 | a written type name reads back as the same type |
| Tsv.EquatorRoundTrip | io.go:91-101 | a written equator reads back as the collection's pixelation |
| Tsv.RecordRow | io.go:148-169 | the pixel and density of a written row read back as that pixel and density |
| Tsv.StepRow | io.go:81-170 | a written row of a stored taxon is accepted and sets exactly that pixel, raising the maximum if needed |
| Tsv.PixelStep | io.go:166-169 | after a new pixel, the taxon holds the pixels read so far and its running maximum is theirs |
| Tsv.PixelRowsRun | io.go:219-232 | reading a taxon's rows gives that taxon with its written pixels, and its maximum is theirs |
| Tsv.TaxaRowsRun | io.go:209-233 | reading the rows of distinct stored taxa gives exactly those taxa, each with its own maximum |
| Tsv.RescaleNormalised | io.go:175-188 | scaling taxa whose ranges are already normalised changes nothing |
| Tsv.DecodeRows | io.go:59-191 | decoding the header and the rows of the given taxa gives those taxa back |
| Tsv.Pixels | io.go:213-216 | the pixel ids of a range, each once, and all of them |
| Tsv.SortedPixelIds | io.go:213-217 | collecting and sorting the pixel ids gives them in increasing order |
| Tsv.TaxonRows | io.go:210-232 | a taxon's records: one per pixel, in increasing pixel order |
| Tsv.WriteTaxa | io.go:209-233 | the records of the given taxa, in that order |
| Tsv.TSV | io.go:195-243 | the records written for a collection are `Encode`: the header, then the taxa in name order |
| Tsv.Encode | io.go:195-243 | what `TSV` writes: the header, then for each taxon in name order one record per pixel in increasing pixel order |
| Tsv.Row | io.go:220-229 | the record of one pixel: name, type name, age, equator, pixel id and formatted density, in the header's column order |
| Tsv.PixelRows | io.go:219-232 | the records of one taxon, one per listed pixel, in the order listed |
| Tsv.TaxaRows | io.go:209-233 | the records of the listed taxa, taxon after taxon in the order listed |
| Tsv.RoundTrip | io.go:59-243 | decoding what `TSV` writes gives back the pixelation and every taxon of a well-formed, non-empty collection whose taxa all have pixels and whose range taxa are normalised and whose range densities survive the float codec |
| Tsv.EmptyNoData | io.go:171-173 | a collection without taxa is written as a header alone, and reading that fails with the no-data error |
| Tsv.RepeatedPixel | io.go:166-169 | a range pixel listed at 2 and then at 1 keeps the later density but the larger maximum, so it reads back as 0.5 and the range is not normalised, whenever 2 and 1 survive the float codec |

## Left out

- Reading and writing bytes: CSV quoting, the `#` comment lines, the
  timestamp line, CRLF line ends and the writer's flush errors. A file is
  its sequence of records. A taxon name that starts with `#` would be read
  back as a comment; this is outside the record-level model.
- Error messages: row numbers and formatted text. Each error is a
  constructor of `Tsv.Error` carrying its values.
- The pixelation's geometry, from the external `earth` package. A
  pixelation is its equator, its number of pixels and a point-to-pixel
  function. `earth.NewPixelation` is the parameter `newPixelation`.
- Floating point: densities are exact reals. `strconv.ParseFloat` and
  `FormatFloat(x, 'f', 6, 64)` are the parameters `parseFloat` and
  `formatFloat`. The round trip holds for collections whose range
  densities survive `formatFloat` followed by `parseFloat` (`ExactIn`);
  with Go's six-decimal format, those whose densities have at most six
  decimals. The repeated-pixel lemmas need only 2 and 1 to survive.
  The collection of the package's own round-trip test (io_test.go:15-29)
  holds densities that six decimals only approximate, so `Tsv.RoundTrip`
  does not cover that test. There the densities read back are rounded to
  six decimals and rescaled by the rounded maximum, and the test compares
  them within 0.001 (ranges_test.go:148-157).
- Case mapping and white space: `strings.ToLower` and the upper-casing of
  the first letter in `canon` map ASCII letters only. White space is
  Go's `unicode.IsSpace`.
- Ranges.Collection.Set: requires every pixel to be below the
  pixelation's length; Go panics otherwise.
- Ranges.Collection.Set: requires a positive maximum for a non-empty map.
  Go divides by zero there and stores infinities or NaNs.
- Ranges.Collection.Set: follows the code, not its doc comment. The doc
  says values below 0.0000005 are dropped, but the code keeps every pixel.
- Tsv.ReadTSV: a range taxon whose maximum is 0 ends in the error
  `ZeroMaximum`. Go divides by zero there and returns infinities or NaNs
  without an error.
- Ranges.Collection.Add: the point's pixel comes from the pixelation's
  point-to-pixel function. Latitude and longitude are reals, with no
  float rounding.
- Sharing: Go stores taxa behind pointers, and `Range` returns the stored
  map itself, so a caller can change a taxon through it. Taxa here are
  values, and `Range` returns a copy.
- `Collection.Pixelation()` (ranges.go:125-129) only returns the field. It
  is the field `pix` of the class.
- The command-line tools under `cmd/` are not part of this model.

## Notes on the source as written

The model follows the code in each of these cases. Each is a proved lemma or
is visible in a contract.

- `Add` ignores its `age` argument. A new points taxon has age 0
  (`Ranges.WithPoint`).
- The running maximum in `ReadTSV` also counts a density that a later row
  for the same pixel overwrites. Such a range reads back with its largest
  density below 1 (`Tsv.RepeatedPixel`).
- An empty collection is written as a header alone, which `ReadTSV`
  rejects (`Tsv.EmptyNoData`). A taxon whose range is empty writes no rows,
  so it is lost on reading back; `Tsv.RoundTrip` requires every taxon to
  have a pixel.
- Negative pixel ids pass the bound checks of `Set` and `ReadTSV`. Only an
  id at or above the pixelation's length is rejected.
