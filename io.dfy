/**
 * The tab-separated file format of a range collection (io.go), on records:
 * a file is the sequence of its records, each a sequence of fields, the
 * first one being the header.
 */
module Tsv {
  import opened Wrappers
  import opened Numerals
  import opened Names
  import opened Sorting
  import opened Ranges

  /** The columns a file must have, in the order `TSV` writes them. */
  const HeaderFields: seq<string> := ["taxon", "type", "age", "equator", "pixel", "density"]

  /** Why a file is rejected. */
  datatype Error =
    | NoHeader                                   // no record at all
    | MissingField(field: string)                // a required column is absent
    | FieldCount                                 // a record's width differs from the header's
    | BadNumber(field: string)                   // an integer or density that does not parse
    | EquatorMismatch(got: Int64, want: Int64)   // a row for another pixelation
    | BadType(token: string)                     // a type other than points or range
    | TypeMismatch(gotType: RangeType, wantType: RangeType)
    | AgeMismatch(got: Int64, want: Int64)
    | PixelOutOfRange(px: Int64)                 // a pixel id at or above the pixelation's length
    | NoData                                     // a header but no data row
    | ZeroMaximum                                // a range taxon whose densities are all at most 0

  /**
   * `cols` maps each lower-cased name of `head` to the position of its last
   * occurrence, and nothing else.
   */
  ghost predicate LastPositions(head: seq<string>, cols: map<string, nat>) {
    && (forall h :: h in cols <==> exists i :: 0 <= i < |head| && Lower(head[i]) == h)
    && (forall h :: h in cols ==>
          cols[h] < |head| && Lower(head[cols[h]]) == h
          && forall j :: cols[h] < j < |head| ==> Lower(head[j]) != h)
  }

  /** The header's column map (the loop over the header in `ReadTSV`). */
  function Columns(head: seq<string>): (cols: map<string, nat>)
    ensures LastPositions(head, cols)
    decreases |head|
  {
    if head == [] then map[]
    else
      var n := |head| - 1;
      var prev := Columns(head[..n]);
      LastPositionsSnoc(head, prev);
      prev[Lower(head[n]) := n]
  }

  /** Recording the last name of the header at its position extends the map of the others. */
  lemma LastPositionsSnoc(head: seq<string>, prev: map<string, nat>)
    requires head != [] && LastPositions(head[..|head| - 1], prev)
    ensures LastPositions(head, prev[Lower(head[|head| - 1]) := |head| - 1])
  {
    var n := |head| - 1;
    var cols := prev[Lower(head[n]) := n];
    forall h ensures h in cols <==> exists i :: 0 <= i < |head| && Lower(head[i]) == h {
      if h in prev {
        var i :| 0 <= i < n && Lower(head[..n][i]) == h;
        assert head[..n][i] == head[i];
      }
      if exists i :: 0 <= i < |head| && Lower(head[i]) == h {
        var i :| 0 <= i < |head| && Lower(head[i]) == h;
        if i < n { assert head[..n][i] == head[i]; }
      }
    }
    forall h | h in cols
      ensures cols[h] < |head| && Lower(head[cols[h]]) == h
      ensures forall j :: cols[h] < j < |head| ==> Lower(head[j]) != h
    {
      if h != Lower(head[n]) {
        assert head[..n][prev[h]] == head[prev[h]];
        forall j | prev[h] < j < |head| ensures Lower(head[j]) != h {
          if j < n { assert head[..n][j] == head[j]; }
        }
      }
    }
  }

  /** The first of `want` that is not a column, if any. */
  function FirstMissing(want: seq<string>, cols: map<string, nat>): (r: Option<string>)
    ensures r.None? <==> forall i :: 0 <= i < |want| ==> want[i] in cols
    ensures r.Some? ==> r.value !in cols
    ensures r.Some? ==>
      exists i :: 0 <= i < |want| && want[i] == r.value && (forall j :: 0 <= j < i ==> want[j] in cols)
  {
    if want == [] then None
    else if want[0] !in cols then Some(want[0])
    else
      var r := FirstMissing(want[1..], cols);
      assert forall i :: 1 <= i < |want| ==> want[1..][i - 1] == want[i];
      r
  }

  /** Every required column is present and lies within a record of `width` fields. */
  predicate Indexed(cols: map<string, nat>, width: nat) {
    forall i :: 0 <= i < |HeaderFields| ==> HeaderFields[i] in cols && cols[HeaderFields[i]] < width
  }

  /**
   * What `ReadTSV` has built after some rows: the pixelation (given, or taken
   * from the first row), the collection's pixelation once the collection
   * exists, the taxa read so far and the running maximum density per taxon.
   */
  datatype Reading = Reading(pix: Option<Pixelation>, coll: Option<Pixelation>,
                             taxa: map<string, Taxon>, max: map<string, real>)

  /** The running maximum of a taxon, 0 before any positive density. */
  function MaxFor(max: map<string, real>, name: string): real {
    if name in max then max[name] else 0.0
  }

  /** The density a row records: 1 for points, the parsed value for a range. */
  function Density(tp: RangeType, text: string, parseFloat: string -> Option<real>): Option<real> {
    if tp == Range then parseFloat(text) else Some(1.0)
  }

  /** The pixelation of a row: the reading's own, or one built from the row's equator. */
  function RowPixelation(pix: Option<Pixelation>, text: string, newPixelation: Int64 -> Pixelation): Result<Pixelation, Error> {
    match ParseInt(text)
    case None => Err(BadNumber("equator"))
    case Some(eq) =>
      var p := if pix.Some? then pix.value else newPixelation(eq);
      if p.equator != eq then Err(EquatorMismatch(eq, p.equator)) else Ok(p)
  }

  /** The range type of a row: `points`, `range` or empty (points), in any letter case. */
  function RowType(text: string): (r: Result<RangeType, Error>)
    ensures r.Ok? <==> Lower(text) in {"points", "range", ""}
    ensures r.Ok? ==> (r.value == Range <==> Lower(text) == "range")
  {
    var kind := Lower(text);
    if kind == "points" then Ok(Points)
    else if kind == "range" then Ok(Range)
    else if kind == "" then Ok(Points)
    else Err(BadType(text))
  }

  /** The taxon a row adds to: the one read before, or a new empty one of the row's type and age. */
  function Existing(taxa: map<string, Taxon>, name: string, tp: RangeType, age: Int64): Taxon {
    if name in taxa then taxa[name] else Taxon(name, tp, age, map[])
  }

  /**
   * The taxon part of a row with a non-blank name: the taxon must agree in
   * type and age with its earlier rows, the pixel must lie below the
   * pixelation's length, and the density is recorded and the maximum raised.
   */
  function Record(st: Reading, pix: Pixelation, name: string, tp: RangeType, age: Int64,
                  pixelText: string, densityText: string, parseFloat: string -> Option<real>): Result<Reading, Error>
  {
    var tax := Existing(st.taxa, name, tp, age);
    if tax.tp != tp then Err(TypeMismatch(tp, tax.tp))
    else if tax.age != age then Err(AgeMismatch(age, tax.age))
    else
      match ParseInt(pixelText)
      case None => Err(BadNumber("pixel"))
      case Some(px) =>
        if px >= pix.len then Err(PixelOutOfRange(px))
        else
          match Density(tax.tp, densityText, parseFloat)
          case None => Err(BadNumber("density"))
          case Some(d) =>
            Ok(st.(taxa := st.taxa[name := tax.(rng := tax.rng[px := d])],
                   max := if MaxFor(st.max, name) < d then st.max[name := d] else st.max))
  }

  /** The reading once a data row has fixed the pixelation and the collection exists. */
  function Begin(st: Reading, pix: Pixelation): Reading {
    st.(pix := Some(pix), coll := if st.coll.Some? then st.coll else Some(pix))
  }

  /** The fields of a row, checked in the order `ReadTSV` checks them. */
  function Step(st: Reading, cols: map<string, nat>, width: nat, row: seq<string>,
                newPixelation: Int64 -> Pixelation, parseFloat: string -> Option<real>): Result<Reading, Error>
    requires Indexed(cols, width)
  {
    assert HeaderFields[0] == "taxon" && HeaderFields[1] == "type" && HeaderFields[2] == "age";
    assert HeaderFields[3] == "equator" && HeaderFields[4] == "pixel" && HeaderFields[5] == "density";
    if |row| != width then Err(FieldCount)
    else
      match RowPixelation(st.pix, row[cols["equator"]], newPixelation)
      case Err(e) => Err(e)
      case Ok(pix) =>
        var begun := Begin(st, pix);
        match RowType(row[cols["type"]])
        case Err(e) => Err(e)
        case Ok(tp) =>
          match ParseInt(row[cols["age"]])
          case None => Err(BadNumber("age"))
          case Some(age) =>
            var name := Canon(row[cols["taxon"]]);
            if name == "" then Ok(begun)
            else Record(begun, pix, name, tp, age, row[cols["pixel"]], row[cols["density"]], parseFloat)
  }

  /** The data rows read in order, stopping at the first error. */
  function Run(st: Reading, cols: map<string, nat>, width: nat, rows: seq<seq<string>>,
               newPixelation: Int64 -> Pixelation, parseFloat: string -> Option<real>): Result<Reading, Error>
    requires Indexed(cols, width)
    decreases |rows|
  {
    if rows == [] then Ok(st)
    else
      match Step(st, cols, width, rows[0], newPixelation, parseFloat)
      case Err(e) => Err(e)
      case Ok(next) => Run(next, cols, width, rows[1..], newPixelation, parseFloat)
  }

  /** Some range taxon has no positive density, so `ReadTSV` would divide by zero. */
  predicate ZeroMax(taxa: map<string, Taxon>, max: map<string, real>) {
    exists n :: n in taxa && taxa[n].tp == Range && MaxFor(max, n) == 0.0
  }

  /** A taxon after the final scaling: a range not already at maximum 1 is divided by its maximum. */
  function Rescaled(t: Taxon, m: real): Taxon
    requires t.tp == Range ==> m != 0.0
  {
    if t.tp == Points || m == 1.0 then t else t.(rng := Scale(t.rng, m))
  }

  function Rescale(taxa: map<string, Taxon>, max: map<string, real>): map<string, Taxon>
    requires !ZeroMax(taxa, max)
  {
    map n | n in taxa :: Rescaled(taxa[n], MaxFor(max, n))
  }

  /** The pixelation and the taxa of a collection read from a file. */
  datatype Decoded = Decoded(pix: Pixelation, taxa: map<string, Taxon>)

  /** `ReadTSV(r, pix)` on the records of `r`. */
  function Decode(rows: seq<seq<string>>, pix: Option<Pixelation>,
                  newPixelation: Int64 -> Pixelation, parseFloat: string -> Option<real>): Result<Decoded, Error>
  {
    if rows == [] then Err(NoHeader)
    else
      var cols := Columns(rows[0]);
      match FirstMissing(HeaderFields, cols)
      case Some(h) => Err(MissingField(h))
      case None =>
        match Run(Reading(pix, None, map[], map[]), cols, |rows[0]|, rows[1..], newPixelation, parseFloat)
        case Err(e) => Err(e)
        case Ok(st) =>
          if st.coll.None? then Err(NoData)
          else if ZeroMax(st.taxa, st.max) then Err(ZeroMaximum)
          else Ok(Decoded(st.coll.value, Rescale(st.taxa, st.max)))
  }

  /** The header loop of `ReadTSV`: the column map of `head`. */
  method ReadHeader(head: seq<string>) returns (fields: map<string, nat>)
    ensures fields == Columns(head)
  {
    fields := map[];
    for i := 0 to |head|
      invariant fields == Columns(head[..i])
    {
      assert head[..i + 1][..i] == head[..i];
      fields := fields[Lower(head[i]) := i];
    }
    assert head[..|head|] == head;
  }

  /** The check of `ReadTSV` that every required column is present. */
  method CheckFields(fields: map<string, nat>) returns (missing: Option<string>)
    ensures missing == FirstMissing(HeaderFields, fields)
  {
    for i := 0 to |HeaderFields|
      invariant FirstMissing(HeaderFields, fields) == FirstMissing(HeaderFields[i..], fields)
    {
      if HeaderFields[i] !in fields {
        return Some(HeaderFields[i]);
      }
      assert HeaderFields[i..][1..] == HeaderFields[i + 1..];
    }
    return None;
  }

  /** The row loop of `ReadTSV`. */
  method ReadRows(start: Reading, fields: map<string, nat>, width: nat, data: seq<seq<string>>,
                  newPixelation: Int64 -> Pixelation, parseFloat: string -> Option<real>)
    returns (r: Result<Reading, Error>)
    requires Indexed(fields, width)
    ensures r == Run(start, fields, width, data, newPixelation, parseFloat)
  {
    var st := start;
    for i := 0 to |data|
      invariant Run(start, fields, width, data, newPixelation, parseFloat)
        == Run(st, fields, width, data[i..], newPixelation, parseFloat)
    {
      var next := Step(st, fields, width, data[i], newPixelation, parseFloat);
      if next.Err? {
        return Err(next.error);
      }
      assert data[i..][1..] == data[i + 1..];
      st := next.value;
    }
    assert data[|data|..] == [];
    return Ok(st);
  }

  /**
   * The scaling loop of `ReadTSV`: every range taxon whose maximum is not 1 is
   * divided by it; `false` when a maximum is 0.
   */
  method ScaleRanges(c: Collection, max: map<string, real>) returns (ok: bool)
    modifies c
    ensures ok <==> !ZeroMax(old(c.taxa), max)
    ensures ok ==> c.taxa == Rescale(old(c.taxa), max)
  {
    ghost var taxa := c.taxa;
    var todo := c.taxa.Keys;
    while todo != {}
      invariant todo <= taxa.Keys
      invariant c.taxa.Keys == taxa.Keys
      invariant forall n :: n in todo ==> c.taxa[n] == taxa[n]
      invariant forall n :: n in taxa && n !in todo ==>
        (taxa[n].tp == Range ==> MaxFor(max, n) != 0.0)
        && c.taxa[n] == Rescaled(taxa[n], MaxFor(max, n))
      decreases todo
    {
      var n :| n in todo;
      var tax := c.taxa[n];
      if tax.tp == Range && MaxFor(max, n) != 1.0 {
        var m := MaxFor(max, n);
        if m == 0.0 {
          return false;
        }
        var scaled := Divide(tax.rng, m);
        c.taxa := c.taxa[n := tax.(rng := scaled)];
      }
      todo := todo - {n};
    }
    return true;
  }

  /**
   * `ReadTSV(r, pix)`: reads a collection from the records of a file; `pix` is
   * `None` when the pixelation is to be taken from the first data row.
   */
  method ReadTSV(rows: seq<seq<string>>, pix: Option<Pixelation>,
                 newPixelation: Int64 -> Pixelation, parseFloat: string -> Option<real>)
    returns (r: Result<Collection, Error>)
    ensures r.Err? <==> Decode(rows, pix, newPixelation, parseFloat).Err?
    ensures r.Err? ==> r.error == Decode(rows, pix, newPixelation, parseFloat).error
    ensures r.Ok? ==>
      && fresh(r.value)
      && r.value.pix == Decode(rows, pix, newPixelation, parseFloat).value.pix
      && r.value.taxa == Decode(rows, pix, newPixelation, parseFloat).value.taxa
    ensures r.Ok? && (pix.Some? ==> pix.value.Valid()) && ValidBuilder(newPixelation) ==> r.value.Valid()
  {
    if rows == [] {
      return Err(NoHeader);
    }
    var fields := ReadHeader(rows[0]);
    var missing := CheckFields(fields);
    if missing.Some? {
      return Err(MissingField(missing.value));
    }
    var read := ReadRows(Reading(pix, None, map[], map[]), fields, |rows[0]|, rows[1..], newPixelation, parseFloat);
    if read.Err? {
      return Err(read.error);
    }
    var st := read.value;
    if st.coll.None? {
      return Err(NoData);
    }
    var c := new Collection(st.coll.value);
    c.taxa := st.taxa;
    var ok := ScaleRanges(c, st.max);
    if !ok {
      return Err(ZeroMaximum);
    }
    if (pix.Some? ==> pix.value.Valid()) && ValidBuilder(newPixelation) {
      DecodeWellFormed(rows, pix, newPixelation, parseFloat);
    }
    return Ok(c);
  }

  /** The record `TSV` writes for pixel `px` of taxon `t`. */
  function Row(t: Taxon, px: Int64, equator: string, formatFloat: real -> string): seq<string>
    requires px in t.rng
  {
    [t.name, TypeName(t.tp), FormatInt(t.age), equator, FormatInt(px), formatFloat(t.rng[px])]
  }

  /** The records of taxon `t` for the pixels `pxs`, in that order. */
  function PixelRows(t: Taxon, pxs: seq<Int64>, equator: string, formatFloat: real -> string): (rows: seq<seq<string>>)
    requires forall i :: 0 <= i < |pxs| ==> pxs[i] in t.rng
    ensures |rows| == |pxs|
    decreases |pxs|
  {
    if pxs == [] then []
    else
      var n := |pxs| - 1;
      PixelRows(t, pxs[..n], equator, formatFloat) + [Row(t, pxs[n], equator, formatFloat)]
  }

  /** The records of the taxa `names`, each taxon's pixels in increasing order. */
  ghost function TaxaRows(taxa: map<string, Taxon>, names: seq<string>, equator: string,
                          formatFloat: real -> string): seq<seq<string>>
    requires forall i :: 0 <= i < |names| ==> names[i] in taxa
    decreases |names|
  {
    if names == [] then []
    else
      var n := |names| - 1;
      var t := taxa[names[n]];
      TaxaRows(taxa, names[..n], equator, formatFloat)
        + PixelRows(t, SortedPixels(t.rng.Keys), equator, formatFloat)
  }

  /**
   * The records `TSV` writes: the header, then for each taxon in name order
   * one record per pixel in increasing order.
   */
  ghost function Encode(pix: Pixelation, taxa: map<string, Taxon>, formatFloat: real -> string): seq<seq<string>> {
    [HeaderFields] + TaxaRows(taxa, SortedNames(taxa.Keys), FormatInt(pix.equator), formatFloat)
  }

  /** The pixel ids of a range map, each once, in no particular order. */
  method Pixels(rng: map<Int64, real>) returns (pixels: seq<Int64>)
    ensures forall px :: px in pixels <==> px in rng
    ensures forall px :: multiset(pixels)[px] <= 1
  {
    pixels := [];
    var todo := rng.Keys;
    while todo != {}
      invariant todo <= rng.Keys
      invariant forall px :: px in pixels <==> px in rng && px !in todo
      invariant forall px :: multiset(pixels)[px] <= 1
      decreases todo
    {
      var px :| px in todo;
      assert px !in pixels;
      pixels := pixels + [px];
      todo := todo - {px};
    }
  }

  lemma PixelRowsExtend(t: Taxon, pxs: seq<Int64>, j: nat, eq: string, formatFloat: real -> string)
    requires j < |pxs| && forall i :: 0 <= i < |pxs| ==> pxs[i] in t.rng
    ensures PixelRows(t, pxs[..j + 1], eq, formatFloat)
      == PixelRows(t, pxs[..j], eq, formatFloat) + [Row(t, pxs[j], eq, formatFloat)]
  {
    assert pxs[..j + 1][..j] == pxs[..j];
  }

  lemma TaxaRowsExtend(taxa: map<string, Taxon>, names: seq<string>, i: nat, eq: string, formatFloat: real -> string)
    requires i < |names| && forall k :: 0 <= k < |names| ==> names[k] in taxa
    ensures TaxaRows(taxa, names[..i + 1], eq, formatFloat)
      == TaxaRows(taxa, names[..i], eq, formatFloat)
        + PixelRows(taxa[names[i]], SortedPixels(taxa[names[i]].rng.Keys), eq, formatFloat)
  {
    assert names[..i + 1][..i] == names[..i];
  }

  /** The pixel ids of a range map in increasing order, as `TSV` collects and sorts them. */
  method SortedPixelIds(rng: map<Int64, real>) returns (pixels: seq<Int64>)
    ensures pixels == SortedPixels(rng.Keys)
  {
    pixels := Pixels(rng);
    PixelOrder();
    pixels := Sort(pixels, PixelBefore);
    forall px ensures px in pixels <==> px in rng {
      assert px in pixels <==> px in multiset(pixels);
    }
    SortedOnceIsOrdered(pixels, rng.Keys, PixelBefore);
  }

  /** The records `TSV` writes for one taxon: one per pixel, in increasing pixel order. */
  method TaxonRows(tax: Taxon, eq: string, formatFloat: real -> string) returns (rows: seq<seq<string>>)
    ensures rows == PixelRows(tax, SortedPixels(tax.rng.Keys), eq, formatFloat)
  {
    var age := FormatInt(tax.age);
    var pixels := SortedPixelIds(tax.rng);
    rows := [];
    for j := 0 to |pixels|
      invariant rows == PixelRows(tax, pixels[..j], eq, formatFloat)
    {
      var d := formatFloat(tax.rng[pixels[j]]);
      var row := [tax.name, TypeName(tax.tp), age, eq, FormatInt(pixels[j]), d];
      PixelRowsExtend(tax, pixels, j, eq, formatFloat);
      rows := rows + [row];
    }
    assert pixels[..|pixels|] == pixels;
  }

  /** The taxon loop of `TSV`: the records of the taxa `names`, in that order. */
  method WriteTaxa(taxa: map<string, Taxon>, names: seq<string>, eq: string, formatFloat: real -> string)
    returns (rows: seq<seq<string>>)
    requires forall k :: 0 <= k < |names| ==> names[k] in taxa
    ensures rows == TaxaRows(taxa, names, eq, formatFloat)
  {
    rows := [];
    for i := 0 to |names|
      invariant rows == TaxaRows(taxa, names[..i], eq, formatFloat)
    {
      var more := TaxonRows(taxa[names[i]], eq, formatFloat);
      TaxaRowsExtend(taxa, names, i, eq, formatFloat);
      rows := rows + more;
    }
    assert names[..|names|] == names;
  }

  /** `c.TSV(w)`: the records written for collection `c`, densities formatted by `formatFloat`. */
  method TSV(c: Collection, formatFloat: real -> string) returns (rows: seq<seq<string>>)
    requires c.Valid()
    ensures rows == Encode(c.pix, c.taxa, formatFloat)
  {
    var eq := FormatInt(c.pix.equator);
    var names := c.Taxa();
    assert forall k :: 0 <= k < |names| ==> names[k] in c.taxa;
    var data := WriteTaxa(c.taxa, names, eq, formatFloat);
    rows := [HeaderFields] + data;
  }

  /**
   * What holds of the reading state between rows: the collection uses the
   * reading's pixelation, holds nothing before it exists, is well formed, and
   * every density is at most the taxon's running maximum, which is positive
   * once recorded.
   */
  ghost predicate Sound(st: Reading) {
    && (st.coll.Some? ==> st.pix == st.coll)
    && (st.coll.None? ==> st.taxa == map[])
    && (st.pix.Some? ==> st.pix.value.Valid())
    && (st.coll.Some? ==> WellFormed(st.coll.value, st.taxa))
    && Bounded(st.taxa, st.max)
  }

  /** Every density is at most its taxon's running maximum, which is positive once recorded. */
  ghost predicate Bounded(taxa: map<string, Taxon>, max: map<string, real>) {
    && (forall n :: n in max ==> max[n] > 0.0)
    && (forall n :: n in taxa ==> forall px :: px in taxa[n].rng ==> taxa[n].rng[px] <= MaxFor(max, n))
  }

  /** Every pixelation the library builds is valid. */
  ghost predicate ValidBuilder(newPixelation: Int64 -> Pixelation) {
    forall e :: newPixelation(e).Valid()
  }

  /** An accepted taxon part sets one pixel of the existing taxon, within the pixelation. */
  lemma RecordShape(st: Reading, pix: Pixelation, name: string, tp: RangeType, age: Int64,
                    pixelText: string, densityText: string, parseFloat: string -> Option<real>)
    requires Record(st, pix, name, tp, age, pixelText, densityText, parseFloat).Ok?
    ensures ParseInt(pixelText).Some? && ParseInt(pixelText).value < pix.len
    ensures Density(tp, densityText, parseFloat).Some?
    ensures var tax := Existing(st.taxa, name, tp, age);
      var px, d := ParseInt(pixelText).value, Density(tp, densityText, parseFloat).value;
      && tax.tp == tp && tax.age == age
      && Record(st, pix, name, tp, age, pixelText, densityText, parseFloat).value.taxa
         == st.taxa[name := tax.(rng := tax.rng[px := d])]
  {
  }

  /** Setting a pixel inside the pixelation (at density 1 for points) keeps a record stored. */
  lemma SetPixelStored(name: string, tax: Taxon, px: Int64, d: real, len: int)
    requires name != "" && Canon(name) == name && tax.name == name
    requires forall q :: q in tax.rng ==> q < len
    requires tax.tp == Points ==> forall q :: q in tax.rng ==> tax.rng[q] == 1.0
    requires px < len && (tax.tp == Points ==> d == 1.0)
    ensures Stored(name, tax.(rng := tax.rng[px := d]), len)
  {
    assert px in tax.rng[px := d];
  }

  /** Setting one pixel of a taxon, as the taxon part of a row does, keeps the collection well formed. */
  lemma SetPixelWellFormed(pix: Pixelation, taxa: map<string, Taxon>, name: string, tp: RangeType,
                           age: Int64, px: Int64, d: real)
    requires WellFormed(pix, taxa) && name != "" && Canon(name) == name
    requires Existing(taxa, name, tp, age).tp == tp
    requires px < pix.len && (tp == Points ==> d == 1.0)
    ensures var tax := Existing(taxa, name, tp, age);
      WellFormed(pix, taxa[name := tax.(rng := tax.rng[px := d])])
  {
    var tax := Existing(taxa, name, tp, age);
    if name in taxa {
      assert Stored(name, taxa[name], pix.len);
    }
    SetPixelStored(name, tax, px, d, pix.len);
    StoredAt(pix, taxa, taxa[name := tax.(rng := tax.rng[px := d])], name);
  }

  /** The taxon part of a row keeps every density at most its taxon's running maximum. */
  lemma RecordBounded(st: Reading, pix: Pixelation, name: string, tp: RangeType, age: Int64,
                      pixelText: string, densityText: string, parseFloat: string -> Option<real>)
    requires Bounded(st.taxa, st.max)
    requires Record(st, pix, name, tp, age, pixelText, densityText, parseFloat).Ok?
    ensures Bounded(Record(st, pix, name, tp, age, pixelText, densityText, parseFloat).value.taxa,
                    Record(st, pix, name, tp, age, pixelText, densityText, parseFloat).value.max)
  {
  }

  /** The taxon part of a row keeps the reading state sound. */
  lemma RecordSound(st: Reading, pix: Pixelation, name: string, tp: RangeType, age: Int64,
                    pixelText: string, densityText: string, parseFloat: string -> Option<real>)
    requires Sound(st) && st.coll == Some(pix) && name != "" && Canon(name) == name
    requires Record(st, pix, name, tp, age, pixelText, densityText, parseFloat).Ok?
    ensures Sound(Record(st, pix, name, tp, age, pixelText, densityText, parseFloat).value)
  {
    RecordShape(st, pix, name, tp, age, pixelText, densityText, parseFloat);
    SetPixelWellFormed(pix, st.taxa, name, tp, age, ParseInt(pixelText).value,
                       Density(tp, densityText, parseFloat).value);
    RecordBounded(st, pix, name, tp, age, pixelText, densityText, parseFloat);
  }

  /** A row's pixelation is the reading's own, or a valid one from the library. */
  lemma RowPixelationValid(pix: Option<Pixelation>, text: string, newPixelation: Int64 -> Pixelation)
    requires pix.Some? ==> pix.value.Valid()
    requires ValidBuilder(newPixelation)
    requires RowPixelation(pix, text, newPixelation).Ok?
    ensures RowPixelation(pix, text, newPixelation).value.Valid()
    ensures pix.Some? ==> RowPixelation(pix, text, newPixelation).value == pix.value
  {
  }

  /** The first data row starts the collection: the reading state stays sound. */
  lemma BegunSound(st: Reading, pix: Pixelation)
    requires Sound(st) && pix.Valid() && (st.pix.Some? ==> st.pix.value == pix)
    ensures Sound(Begin(st, pix))
  {
  }

  /** The required columns by name. */
  lemma IndexedNames(cols: map<string, nat>, width: nat)
    requires Indexed(cols, width)
    ensures "equator" in cols && cols["equator"] < width && "taxon" in cols && cols["taxon"] < width
    ensures "type" in cols && cols["type"] < width && "age" in cols && cols["age"] < width
    ensures "pixel" in cols && cols["pixel"] < width && "density" in cols && cols["density"] < width
  {
    assert HeaderFields[0] == "taxon" && HeaderFields[1] == "type" && HeaderFields[2] == "age";
    assert HeaderFields[3] == "equator" && HeaderFields[4] == "pixel" && HeaderFields[5] == "density";
  }

  /** An accepted row either only starts the collection (blank name) or records a pixel. */
  lemma StepShape(st: Reading, cols: map<string, nat>, width: nat, row: seq<string>,
                  newPixelation: Int64 -> Pixelation, parseFloat: string -> Option<real>)
    requires Indexed(cols, width)
    requires Step(st, cols, width, row, newPixelation, parseFloat).Ok?
    ensures "equator" in cols && cols["equator"] < |row| && "taxon" in cols && cols["taxon"] < |row|
    ensures "type" in cols && cols["type"] < |row| && "age" in cols && cols["age"] < |row|
    ensures "pixel" in cols && cols["pixel"] < |row| && "density" in cols && cols["density"] < |row|
    ensures RowPixelation(st.pix, row[cols["equator"]], newPixelation).Ok?
    ensures RowType(row[cols["type"]]).Ok? && ParseInt(row[cols["age"]]).Some?
    ensures
      var pix := RowPixelation(st.pix, row[cols["equator"]], newPixelation).value;
      var name := Canon(row[cols["taxon"]]);
      var next := Step(st, cols, width, row, newPixelation, parseFloat).value;
      && (name == "" ==> next == Begin(st, pix))
      && (name != "" ==>
          var r := Record(Begin(st, pix), pix, name, RowType(row[cols["type"]]).value,
                          ParseInt(row[cols["age"]]).value, row[cols["pixel"]], row[cols["density"]], parseFloat);
          r.Ok? && next == r.value)
  {
    IndexedNames(cols, width);
  }

  /** One row keeps the reading state sound. */
  lemma StepSound(st: Reading, cols: map<string, nat>, width: nat, row: seq<string>,
                  newPixelation: Int64 -> Pixelation, parseFloat: string -> Option<real>)
    requires Indexed(cols, width) && Sound(st) && ValidBuilder(newPixelation)
    requires Step(st, cols, width, row, newPixelation, parseFloat).Ok?
    ensures Sound(Step(st, cols, width, row, newPixelation, parseFloat).value)
  {
    StepShape(st, cols, width, row, newPixelation, parseFloat);
    RowPixelationValid(st.pix, row[cols["equator"]], newPixelation);
    var pix := RowPixelation(st.pix, row[cols["equator"]], newPixelation).value;
    BegunSound(st, pix);
    var name := Canon(row[cols["taxon"]]);
    if name != "" {
      CanonIdempotent(row[cols["taxon"]]);
      RecordSound(Begin(st, pix), pix, name, RowType(row[cols["type"]]).value,
                  ParseInt(row[cols["age"]]).value, row[cols["pixel"]], row[cols["density"]], parseFloat);
    }
  }

  /** All the rows keep the reading state sound. */
  lemma {:induction false} RunSound(st: Reading, cols: map<string, nat>, width: nat, rows: seq<seq<string>>,
                                    newPixelation: Int64 -> Pixelation, parseFloat: string -> Option<real>)
    requires Indexed(cols, width) && Sound(st) && ValidBuilder(newPixelation)
    requires Run(st, cols, width, rows, newPixelation, parseFloat).Ok?
    ensures Sound(Run(st, cols, width, rows, newPixelation, parseFloat).value)
    decreases |rows|
  {
    if rows != [] {
      StepSound(st, cols, width, rows[0], newPixelation, parseFloat);
      var next := Step(st, cols, width, rows[0], newPixelation, parseFloat).value;
      RunSound(next, cols, width, rows[1..], newPixelation, parseFloat);
    }
  }

  /** Every density of a taxon after the final scaling is at most 1. */
  ghost predicate AtMostOne(t: Taxon) {
    forall px :: px in t.rng ==> t.rng[px] <= 1.0
  }

  /** The final scaling keeps the collection well formed and brings every range density to at most 1. */
  lemma RescaleSound(pix: Pixelation, taxa: map<string, Taxon>, max: map<string, real>)
    requires WellFormed(pix, taxa) && Bounded(taxa, max) && !ZeroMax(taxa, max)
    ensures WellFormed(pix, Rescale(taxa, max))
    ensures forall n :: n in Rescale(taxa, max) && Rescale(taxa, max)[n].tp == Range ==> AtMostOne(Rescale(taxa, max)[n])
  {
    var r := Rescale(taxa, max);
    forall n | n in r
      ensures Stored(n, r[n], pix.len)
      ensures r[n].tp == Range ==> AtMostOne(r[n])
    {
      var t := taxa[n];
      var m := MaxFor(max, n);
      assert Stored(n, t, pix.len);
      if t.tp == Range {
        assert m > 0.0;
        forall px | px in r[n].rng ensures r[n].rng[px] <= 1.0 {
          if m != 1.0 {
            DivideAtMostOne(t.rng[px], m);
          }
        }
      }
    }
  }

  /** The columns of a header that names every required field are indexed. */
  lemma HeaderIndexed(head: seq<string>, cols: map<string, nat>)
    requires cols == Columns(head)
    requires FirstMissing(HeaderFields, cols).None?
    ensures Indexed(cols, |head|)
  {
    assert forall i :: 0 <= i < |HeaderFields| ==> HeaderFields[i] in cols;
  }

  /**
   * A decoded collection is well formed (given valid pixelations), and every
   * density of a range taxon is at most 1.
   */
  lemma DecodeWellFormed(rows: seq<seq<string>>, pix: Option<Pixelation>,
                         newPixelation: Int64 -> Pixelation, parseFloat: string -> Option<real>)
    requires pix.Some? ==> pix.value.Valid()
    requires ValidBuilder(newPixelation)
    requires Decode(rows, pix, newPixelation, parseFloat).Ok?
    ensures WellFormed(Decode(rows, pix, newPixelation, parseFloat).value.pix,
                       Decode(rows, pix, newPixelation, parseFloat).value.taxa)
    ensures var taxa := Decode(rows, pix, newPixelation, parseFloat).value.taxa;
      forall n :: n in taxa && taxa[n].tp == Range ==> AtMostOne(taxa[n])
  {
    var cols := Columns(rows[0]);
    HeaderIndexed(rows[0], cols);
    var start := Reading(pix, None, map[], map[]);
    assert Sound(start);
    RunSound(start, cols, |rows[0]|, rows[1..], newPixelation, parseFloat);
    var st := Run(start, cols, |rows[0]|, rows[1..], newPixelation, parseFloat).value;
    RescaleSound(st.coll.value, st.taxa, st.max);
  }

  /** `Run` over two blocks of rows is `Run` over the first, then over the second. */
  lemma {:induction false} RunAppend(st: Reading, cols: map<string, nat>, width: nat,
                                     a: seq<seq<string>>, b: seq<seq<string>>,
                                     newPixelation: Int64 -> Pixelation, parseFloat: string -> Option<real>)
    requires Indexed(cols, width)
    ensures Run(st, cols, width, a + b, newPixelation, parseFloat)
      == match Run(st, cols, width, a, newPixelation, parseFloat)
         case Err(e) => Err(e)
         case Ok(mid) => Run(mid, cols, width, b, newPixelation, parseFloat)
    decreases |a|
  {
    if a != [] {
      assert (a + b)[0] == a[0] && (a + b)[1..] == a[1..] + b;
      match Step(st, cols, width, a[0], newPixelation, parseFloat)
      case Err(e) =>
      case Ok(next) => RunAppend(next, cols, width, a[1..], b, newPixelation, parseFloat);
    } else {
      assert a + b == b;
    }
  }

  /** The required field names are distinct and already lower-case. */
  lemma HeaderFieldsPlain()
    ensures forall i, j :: 0 <= i < j < |HeaderFields| ==> HeaderFields[i] != HeaderFields[j]
    ensures forall i :: 0 <= i < |HeaderFields| ==> Lower(HeaderFields[i]) == HeaderFields[i]
  {
    forall i | 0 <= i < |HeaderFields| ensures Lower(HeaderFields[i]) == HeaderFields[i] {
      LowerUnchanged(HeaderFields[i]);
    }
    assert "taxon"[0] != "pixel"[0];
    assert "equator"[0] != "density"[0];
  }

  /** In the header `TSV` writes, each required field's column is its own position. */
  lemma ColumnAt(head: seq<string>, cols: map<string, nat>, i: nat)
    requires head == HeaderFields && cols == Columns(head) && i < |head|
    ensures head[i] in cols && cols[head[i]] == i
  {
    HeaderFieldsPlain();
    assert Lower(head[i]) == head[i];
    var c := cols[head[i]];
    assert head[c] == head[i];
  }

  /** The column map of the header `TSV` writes: each required field at its own position. */
  predicate Standard(cols: map<string, nat>) {
    && "taxon" in cols && cols["taxon"] == 0 && "type" in cols && cols["type"] == 1
    && "age" in cols && cols["age"] == 2 && "equator" in cols && cols["equator"] == 3
    && "pixel" in cols && cols["pixel"] == 4 && "density" in cols && cols["density"] == 5
    && Indexed(cols, |HeaderFields|)
  }

  /** A column map placing every required field at its own position is standard. */
  lemma StandardPositions(cols: map<string, nat>)
    requires forall i :: 0 <= i < |HeaderFields| ==> HeaderFields[i] in cols && cols[HeaderFields[i]] == i
    ensures Standard(cols)
  {
    assert HeaderFields[0] == "taxon" && HeaderFields[1] == "type" && HeaderFields[2] == "age";
    assert HeaderFields[3] == "equator" && HeaderFields[4] == "pixel" && HeaderFields[5] == "density";
  }

  /** The header `TSV` writes maps each required field to its own position. */
  lemma HeaderColumns(head: seq<string>, cols: map<string, nat>)
    requires head == HeaderFields && cols == Columns(head)
    ensures Standard(cols)
  {
    forall i | 0 <= i < |head| ensures head[i] in cols && cols[head[i]] == i {
      ColumnAt(head, cols, i);
    }
    StandardPositions(cols);
  }

  /**
   * Every density of `t` that the reader parses (those of a range taxon)
   * survives being formatted and parsed back.
   */
  ghost predicate ExactAt(parseFloat: string -> Option<real>, formatFloat: real -> string, t: Taxon) {
    t.tp == Range ==> forall px :: px in t.rng ==> parseFloat(formatFloat(t.rng[px])) == Some(t.rng[px])
  }

  /** Every taxon's densities survive being formatted and parsed back. */
  ghost predicate ExactIn(parseFloat: string -> Option<real>, formatFloat: real -> string, taxa: map<string, Taxon>) {
    forall n {:trigger ExactAt(parseFloat, formatFloat, taxa[n])} :: n in taxa ==> ExactAt(parseFloat, formatFloat, taxa[n])
  }

  /**
   * The reading is ready for rows of pixelation `pix`: it already uses `pix`,
   * or builds `pix` from the rows' equator.
   */
  ghost predicate ReadyFor(st: Reading, pix: Pixelation, newPixelation: Int64 -> Pixelation) {
    && (st.pix == Some(pix) || (st.pix.None? && newPixelation(pix.equator) == pix))
    && (st.coll.Some? ==> st.coll == Some(pix) && st.pix == Some(pix))
  }

  /** A written range type reads back as itself. */
  lemma TypeNameRoundTrip(tp: RangeType)
    ensures RowType(TypeName(tp)) == Ok(tp)
  {
    LowerUnchanged(TypeName(tp));
  }

  /** The written equator selects the reading's pixelation. */
  lemma EquatorRoundTrip(st: Reading, pix: Pixelation, newPixelation: Int64 -> Pixelation)
    requires ReadyFor(st, pix, newPixelation)
    ensures RowPixelation(st.pix, FormatInt(pix.equator), newPixelation) == Ok(pix)
  {
    ParseFormatInt(pix.equator);
  }

  /** The taxon part of a written row sets the pixel to the written density. */
  lemma RecordRow(st: Reading, pix: Pixelation, t: Taxon, px: Int64,
                  parseFloat: string -> Option<real>, formatFloat: real -> string)
    requires Stored(t.name, t, pix.len) && px in t.rng
    requires ExactAt(parseFloat, formatFloat, t)
    requires t.name in st.taxa ==> st.taxa[t.name].tp == t.tp && st.taxa[t.name].age == t.age
    ensures var tax := Existing(st.taxa, t.name, t.tp, t.age);
      var v := t.rng[px];
      Record(st, pix, t.name, t.tp, t.age, FormatInt(px), formatFloat(v), parseFloat)
      == Ok(st.(taxa := st.taxa[t.name := tax.(rng := tax.rng[px := v])],
                max := if MaxFor(st.max, t.name) < v then st.max[t.name := v] else st.max))
  {
    ParseFormatInt(px);
    if t.tp == Points {
      assert t.rng[px] == 1.0;
    } else {
      assert parseFloat(formatFloat(t.rng[px])) == Some(t.rng[px]);
    }
  }

  /** A row whose pixelation, type, age and non-blank name all read is recorded under that name. */
  lemma StepFields(st: Reading, cols: map<string, nat>, row: seq<string>, pix: Pixelation, name: string,
                   tp: RangeType, age: Int64, newPixelation: Int64 -> Pixelation, parseFloat: string -> Option<real>)
    requires Standard(cols) && |row| == |HeaderFields|
    requires RowPixelation(st.pix, row[3], newPixelation) == Ok(pix)
    requires RowType(row[1]) == Ok(tp)
    requires ParseInt(row[2]) == Some(age)
    requires Canon(row[0]) == name && name != ""
    ensures Step(st, cols, |HeaderFields|, row, newPixelation, parseFloat)
      == Record(Begin(st, pix), pix, name, tp, age, row[4], row[5], parseFloat)
  {
  }

  /** The row `TSV` writes for pixel `px` of a stored taxon reads back as that pixel and density. */
  lemma StepRow(st: Reading, cols: map<string, nat>, pix: Pixelation, t: Taxon, px: Int64,
                newPixelation: Int64 -> Pixelation, parseFloat: string -> Option<real>, formatFloat: real -> string)
    requires Standard(cols)
    requires Stored(t.name, t, pix.len) && px in t.rng
    requires ExactAt(parseFloat, formatFloat, t)
    requires ReadyFor(st, pix, newPixelation)
    requires t.name in st.taxa ==> st.taxa[t.name].tp == t.tp && st.taxa[t.name].age == t.age
    ensures Indexed(cols, |HeaderFields|)
    ensures var tax := Existing(st.taxa, t.name, t.tp, t.age);
      var v := t.rng[px];
      Step(st, cols, |HeaderFields|, Row(t, px, FormatInt(pix.equator), formatFloat), newPixelation, parseFloat)
      == Ok(Reading(Some(pix), Some(pix), st.taxa[t.name := tax.(rng := tax.rng[px := v])],
                    if MaxFor(st.max, t.name) < v then st.max[t.name := v] else st.max))
  {
    StepRowFields(st, cols, pix, t, px, newPixelation, parseFloat, formatFloat);
    RecordRow(st.(pix := Some(pix), coll := Some(pix)), pix, t, px, parseFloat, formatFloat);
  }

  /** The fields of a written row before the pixel read back as the taxon's name, type and age. */
  lemma StepRowFields(st: Reading, cols: map<string, nat>, pix: Pixelation, t: Taxon, px: Int64,
                      newPixelation: Int64 -> Pixelation, parseFloat: string -> Option<real>, formatFloat: real -> string)
    requires Standard(cols)
    requires Stored(t.name, t, pix.len) && px in t.rng
    requires ReadyFor(st, pix, newPixelation)
    ensures Step(st, cols, |HeaderFields|, Row(t, px, FormatInt(pix.equator), formatFloat), newPixelation, parseFloat)
      == Record(st.(pix := Some(pix), coll := Some(pix)), pix, t.name, t.tp, t.age,
                FormatInt(px), formatFloat(t.rng[px]), parseFloat)
  {
    var row := Row(t, px, FormatInt(pix.equator), formatFloat);
    ParseFormatInt(t.age);
    TypeNameRoundTrip(t.tp);
    EquatorRoundTrip(st, pix, newPixelation);
    StepFields(st, cols, row, pix, t.name, t.tp, t.age, newPixelation, parseFloat);
    assert Begin(st, pix) == st.(pix := Some(pix), coll := Some(pix));
  }

  /** A single row read on its own. */
  lemma RunOne(st: Reading, cols: map<string, nat>, width: nat, row: seq<string>,
               newPixelation: Int64 -> Pixelation, parseFloat: string -> Option<real>)
    requires Indexed(cols, width)
    ensures Run(st, cols, width, [row], newPixelation, parseFloat)
      == match Step(st, cols, width, row, newPixelation, parseFloat)
         case Err(e) => Err(e)
         case Ok(next) => Ok(next)
  {
    assert [row][1..] == [];
  }

  /** The part of a range map at the pixels `pxs`. */
  ghost function Restrict(rng: map<Int64, real>, pxs: seq<Int64>): map<Int64, real> {
    map px | px in rng && px in pxs :: rng[px]
  }

  /** The taxa named in `names`. */
  ghost function Within(taxa: map<string, Taxon>, names: seq<string>): map<string, Taxon> {
    map n | n in taxa && n in names :: taxa[n]
  }

  /** Restricting to one more pixel adds that pixel's density. */
  lemma RestrictSnoc(rng: map<Int64, real>, pxs: seq<Int64>)
    requires pxs != [] && pxs[|pxs| - 1] in rng
    ensures var n := |pxs| - 1;
      Restrict(rng, pxs) == Restrict(rng, pxs[..n])[pxs[n] := rng[pxs[n]]]
  {
    var n := |pxs| - 1;
    assert pxs == pxs[..n] + [pxs[n]];
  }

  /** Reading the row of pixel `last` adds it to the taxon's pixels read so far. */
  lemma PixelStep(mid: Reading, cols: map<string, nat>, pix: Pixelation,
                  t: Taxon, before: map<Int64, real>, last: Int64, newPixelation: Int64 -> Pixelation,
                  parseFloat: string -> Option<real>, formatFloat: real -> string)
    requires Standard(cols)
    requires Stored(t.name, t, pix.len) && last in t.rng && last !in before
    requires ExactAt(parseFloat, formatFloat, t)
    requires ReadyFor(mid, pix, newPixelation)
    requires t.name in mid.taxa ==> mid.taxa[t.name] == t.(rng := before)
    requires t.name !in mid.taxa ==> before == map[]
    requires MaxFor(mid.max, t.name) == MaxOf(before)
    ensures Indexed(cols, |HeaderFields|)
    ensures var r := Run(mid, cols, |HeaderFields|, [Row(t, last, FormatInt(pix.equator), formatFloat)],
                         newPixelation, parseFloat);
      && r.Ok? && r.value.pix == Some(pix) && r.value.coll == Some(pix)
      && r.value.taxa == mid.taxa[t.name := t.(rng := before[last := t.rng[last]])]
      && r.value.max - {t.name} == mid.max - {t.name}
      && MaxFor(r.value.max, t.name) == MaxOf(before[last := t.rng[last]])
  {
    var row := Row(t, last, FormatInt(pix.equator), formatFloat);
    StepRow(mid, cols, pix, t, last, newPixelation, parseFloat, formatFloat);
    RunOne(mid, cols, |HeaderFields|, row, newPixelation, parseFloat);
    MaxOfAdd(before, last, t.rng[last]);
    assert Existing(mid.taxa, t.name, t.tp, t.age) == t.(rng := before);
  }

  /**
   * `r` is `st` after reading the rows of taxon `t` at pixels `pxs`: the taxon
   * holds exactly those pixels, and its running maximum is their maximum.
   */
  ghost predicate Absorbed(st: Reading, r: Reading, pix: Pixelation, t: Taxon, pxs: seq<Int64>,
                           newPixelation: Int64 -> Pixelation) {
    && ReadyFor(r, pix, newPixelation)
    && (pxs == [] ==> r == st)
    && (pxs != [] ==> r.coll == Some(pix) && r.taxa == st.taxa[t.name := t.(rng := Restrict(t.rng, pxs))])
    && r.max - {t.name} == st.max
    && MaxFor(r.max, t.name) == MaxOf(Restrict(t.rng, pxs))
  }

  /** One more pixel read after the others keeps the reading absorbed. */
  lemma AbsorbedSnoc(st: Reading, mid: Reading, r: Reading, pix: Pixelation, t: Taxon, pxs: seq<Int64>,
                     newPixelation: Int64 -> Pixelation)
    requires pxs != [] && pxs[|pxs| - 1] in t.rng
    requires t.name !in st.taxa && t.name !in st.max
    requires Absorbed(st, mid, pix, t, pxs[..|pxs| - 1], newPixelation)
    requires var before, last := Restrict(t.rng, pxs[..|pxs| - 1]), pxs[|pxs| - 1];
      && r.pix == Some(pix) && r.coll == Some(pix)
      && r.taxa == mid.taxa[t.name := t.(rng := before[last := t.rng[last]])]
      && r.max - {t.name} == mid.max - {t.name}
      && MaxFor(r.max, t.name) == MaxOf(before[last := t.rng[last]])
    ensures Absorbed(st, r, pix, t, pxs, newPixelation)
  {
    RestrictSnoc(t.rng, pxs);
    var rest := Restrict(t.rng, pxs);
    assert mid.taxa[t.name := t.(rng := rest)] == st.taxa[t.name := t.(rng := rest)];
  }

  /** The rows of pixels `pxs` are those of all but the last, then the last one's. */
  lemma {:induction false} PixelRowsSnoc(st: Reading, mid: Reading, cols: map<string, nat>, pix: Pixelation,
                                         t: Taxon, pxs: seq<Int64>, newPixelation: Int64 -> Pixelation,
                                         parseFloat: string -> Option<real>, formatFloat: real -> string)
    requires Standard(cols)
    requires Stored(t.name, t, pix.len)
    requires pxs != [] && forall i :: 0 <= i < |pxs| ==> pxs[i] in t.rng
    requires forall i, j :: 0 <= i < j < |pxs| ==> pxs[i] != pxs[j]
    requires ExactAt(parseFloat, formatFloat, t)
    requires t.name !in st.taxa && t.name !in st.max
    requires Run(st, cols, |HeaderFields|, PixelRows(t, pxs[..|pxs| - 1], FormatInt(pix.equator), formatFloat),
                 newPixelation, parseFloat) == Ok(mid)
    requires Absorbed(st, mid, pix, t, pxs[..|pxs| - 1], newPixelation)
    ensures var r := Run(st, cols, |HeaderFields|, PixelRows(t, pxs, FormatInt(pix.equator), formatFloat),
                         newPixelation, parseFloat);
      r.Ok? && Absorbed(st, r.value, pix, t, pxs, newPixelation)
  {
    var eq := FormatInt(pix.equator);
    var w := |HeaderFields|;
    var n := |pxs| - 1;
    var init, last := pxs[..n], pxs[n];
    var a := PixelRows(t, init, eq, formatFloat);
    var row := Row(t, last, eq, formatFloat);
    assert PixelRows(t, pxs, eq, formatFloat) == a + [row];
    RunAppend(st, cols, w, a, [row], newPixelation, parseFloat);
    var before := Restrict(t.rng, init);
    assert init == [] ==> before == map[];
    assert last !in before by {
      forall i | 0 <= i < n ensures init[i] != last {
        assert init[i] == pxs[i];
      }
    }
    PixelStep(mid, cols, pix, t, before, last, newPixelation, parseFloat, formatFloat);
    AbsorbedSnoc(st, mid, Run(mid, cols, w, [row], newPixelation, parseFloat).value, pix, t, pxs, newPixelation);
  }

  /**
   * Reading back the rows `TSV` writes for some distinct pixels of a stored
   * taxon (absent from the reading so far) adds the taxon with exactly those
   * pixels and their densities, with their maximum as its running maximum.
   */
  lemma {:induction false} PixelRowsRun(st: Reading, cols: map<string, nat>, pix: Pixelation,
                                        t: Taxon, pxs: seq<Int64>, newPixelation: Int64 -> Pixelation,
                                        parseFloat: string -> Option<real>, formatFloat: real -> string)
    requires Standard(cols)
    requires Stored(t.name, t, pix.len)
    requires forall i :: 0 <= i < |pxs| ==> pxs[i] in t.rng
    requires forall i, j :: 0 <= i < j < |pxs| ==> pxs[i] != pxs[j]
    requires ExactAt(parseFloat, formatFloat, t)
    requires ReadyFor(st, pix, newPixelation)
    requires t.name !in st.taxa && t.name !in st.max
    ensures var r := Run(st, cols, |HeaderFields|, PixelRows(t, pxs, FormatInt(pix.equator), formatFloat),
                         newPixelation, parseFloat);
      r.Ok? && Absorbed(st, r.value, pix, t, pxs, newPixelation)
    decreases |pxs|
  {
    if pxs == [] {
      assert Restrict(t.rng, pxs) == map[];
    } else {
      var init := pxs[..|pxs| - 1];
      PixelRowsRun(st, cols, pix, t, init, newPixelation, parseFloat, formatFloat);
      var mid := Run(st, cols, |HeaderFields|, PixelRows(t, init, FormatInt(pix.equator), formatFloat),
                     newPixelation, parseFloat).value;
      PixelRowsSnoc(st, mid, cols, pix, t, pxs, newPixelation, parseFloat, formatFloat);
    }
  }

  /**
   * `r` is the reading started at `start` after the rows of the taxa `names`:
   * it holds exactly those taxa, and each one's running maximum is the maximum
   * of its densities.
   */
  ghost predicate Collected(start: Reading, r: Reading, pix: Pixelation, taxa: map<string, Taxon>,
                            names: seq<string>, newPixelation: Int64 -> Pixelation) {
    && ReadyFor(r, pix, newPixelation)
    && (names == [] ==> r == start)
    && (names != [] ==> r.coll == Some(pix))
    && r.taxa == Within(taxa, names)
    && (forall n :: n in r.max ==> n in names)
    && (forall n :: n in names && n in taxa ==> MaxFor(r.max, n) == MaxOf(taxa[n].rng))
  }

  /** All pixels of a range map, in increasing order, restrict it to itself. */
  lemma RestrictAll(rng: map<Int64, real>)
    ensures Restrict(rng, SortedPixels(rng.Keys)) == rng
  {
  }

  /** One more taxon read after the others keeps the reading collected. */
  lemma CollectedSnoc(start: Reading, mid: Reading, r: Reading, pix: Pixelation, taxa: map<string, Taxon>,
                      names: seq<string>, newPixelation: Int64 -> Pixelation)
    requires names != [] && names[|names| - 1] in taxa
    requires var last := names[|names| - 1];
      taxa[last].name == last && taxa[last].rng != map[] && last !in mid.taxa && last !in mid.max
    requires Collected(start, mid, pix, taxa, names[..|names| - 1], newPixelation)
    requires var t := taxa[names[|names| - 1]];
      Absorbed(mid, r, pix, t, SortedPixels(t.rng.Keys), newPixelation)
    ensures Collected(start, r, pix, taxa, names, newPixelation)
  {
    var n := |names| - 1;
    var init, last := names[..n], names[n];
    var t := taxa[last];
    RestrictAll(t.rng);
    assert names == init + [last];
    assert r.taxa == Within(taxa, names);
    forall k | k in names && k in taxa ensures MaxFor(r.max, k) == MaxOf(taxa[k].rng) {
      if k != last {
        assert k in init;
        assert k in r.max <==> k in mid.max;
      }
    }
  }

  /** Reading the rows of taxa `names` reads those of all but the last, then the last one's. */
  lemma TaxaRowsAppend(start: Reading, mid: Reading, cols: map<string, nat>, taxa: map<string, Taxon>,
                       names: seq<string>, eq: string, newPixelation: Int64 -> Pixelation,
                       parseFloat: string -> Option<real>, formatFloat: real -> string)
    requires Indexed(cols, |HeaderFields|)
    requires names != [] && forall i :: 0 <= i < |names| ==> names[i] in taxa
    requires Run(start, cols, |HeaderFields|, TaxaRows(taxa, names[..|names| - 1], eq, formatFloat),
                 newPixelation, parseFloat) == Ok(mid)
    ensures var t := taxa[names[|names| - 1]];
      Run(start, cols, |HeaderFields|, TaxaRows(taxa, names, eq, formatFloat), newPixelation, parseFloat)
      == Run(mid, cols, |HeaderFields|, PixelRows(t, SortedPixels(t.rng.Keys), eq, formatFloat), newPixelation, parseFloat)
  {
    var n := |names| - 1;
    var t := taxa[names[n]];
    var a := TaxaRows(taxa, names[..n], eq, formatFloat);
    var b := PixelRows(t, SortedPixels(t.rng.Keys), eq, formatFloat);
    assert TaxaRows(taxa, names, eq, formatFloat) == a + b;
    RunAppend(start, cols, |HeaderFields|, a, b, newPixelation, parseFloat);
  }

  /** The last of distinct names is not yet read after the others. */
  lemma LastUnread(start: Reading, mid: Reading, pix: Pixelation, taxa: map<string, Taxon>, names: seq<string>,
                   newPixelation: Int64 -> Pixelation)
    requires names != [] && forall i, j :: 0 <= i < j < |names| ==> names[i] != names[j]
    requires Collected(start, mid, pix, taxa, names[..|names| - 1], newPixelation)
    ensures names[|names| - 1] !in mid.taxa && names[|names| - 1] !in mid.max
  {
    var n := |names| - 1;
    var init, last := names[..n], names[n];
    forall i | 0 <= i < n ensures init[i] != last {
      assert init[i] == names[i];
    }
  }

  /** The pixels of a range map in increasing order: each one once, and all of them. */
  lemma SortedPixelsOnce(rng: map<Int64, real>)
    ensures var pxs := SortedPixels(rng.Keys);
      && (forall i :: 0 <= i < |pxs| ==> pxs[i] in rng)
      && (forall i, j :: 0 <= i < j < |pxs| ==> pxs[i] != pxs[j])
  {
  }

  /** The rows of taxa `names` are those of all but the last, then the last one's. */
  lemma TaxaRowsSnoc(start: Reading, mid: Reading, cols: map<string, nat>, pix: Pixelation,
                     taxa: map<string, Taxon>, names: seq<string>, newPixelation: Int64 -> Pixelation,
                     parseFloat: string -> Option<real>, formatFloat: real -> string)
    requires Standard(cols)
    requires names != [] && forall i :: 0 <= i < |names| ==> names[i] in taxa
    requires var last := names[|names| - 1];
      Stored(last, taxa[last], pix.len) && taxa[last].rng != map[]
    requires forall i, j :: 0 <= i < j < |names| ==> names[i] != names[j]
    requires ExactIn(parseFloat, formatFloat, taxa)
    requires Run(start, cols, |HeaderFields|, TaxaRows(taxa, names[..|names| - 1], FormatInt(pix.equator), formatFloat),
                 newPixelation, parseFloat) == Ok(mid)
    requires Collected(start, mid, pix, taxa, names[..|names| - 1], newPixelation)
    ensures var r := Run(start, cols, |HeaderFields|, TaxaRows(taxa, names, FormatInt(pix.equator), formatFloat),
                         newPixelation, parseFloat);
      r.Ok? && Collected(start, r.value, pix, taxa, names, newPixelation)
  {
    LastUnread(start, mid, pix, taxa, names, newPixelation);
    var r := LastTaxonRun(start, mid, cols, pix, taxa, names, newPixelation, parseFloat, formatFloat);
    CollectedSnoc(start, mid, r, pix, taxa, names, newPixelation);
  }

  /** Reading the last taxon's rows after the others' absorbs that taxon. */
  lemma LastTaxonRun(start: Reading, mid: Reading, cols: map<string, nat>, pix: Pixelation,
                     taxa: map<string, Taxon>, names: seq<string>, newPixelation: Int64 -> Pixelation,
                     parseFloat: string -> Option<real>, formatFloat: real -> string)
    returns (r: Reading)
    requires Standard(cols)
    requires names != [] && forall i :: 0 <= i < |names| ==> names[i] in taxa
    requires var last := names[|names| - 1];
      Stored(last, taxa[last], pix.len) && last !in mid.taxa && last !in mid.max
    requires ExactIn(parseFloat, formatFloat, taxa)
    requires ReadyFor(mid, pix, newPixelation)
    requires Run(start, cols, |HeaderFields|, TaxaRows(taxa, names[..|names| - 1], FormatInt(pix.equator), formatFloat),
                 newPixelation, parseFloat) == Ok(mid)
    ensures Run(start, cols, |HeaderFields|, TaxaRows(taxa, names, FormatInt(pix.equator), formatFloat),
                newPixelation, parseFloat) == Ok(r)
    ensures var t := taxa[names[|names| - 1]];
      Absorbed(mid, r, pix, t, SortedPixels(t.rng.Keys), newPixelation)
  {
    var eq := FormatInt(pix.equator);
    var t := taxa[names[|names| - 1]];
    var pxs := SortedPixels(t.rng.Keys);
    TaxaRowsAppend(start, mid, cols, taxa, names, eq, newPixelation, parseFloat, formatFloat);
    SortedPixelsOnce(t.rng);
    PixelRowsRun(mid, cols, pix, t, pxs, newPixelation, parseFloat, formatFloat);
    r := Run(mid, cols, |HeaderFields|, PixelRows(t, pxs, eq, formatFloat), newPixelation, parseFloat).value;
  }

  /**
   * Reading back the rows `TSV` writes for some distinct taxa of a
   * well-formed collection yields exactly those taxa.
   */
  lemma {:induction false} TaxaRowsRun(start: Reading, cols: map<string, nat>, pix: Pixelation,
                                       taxa: map<string, Taxon>, names: seq<string>, newPixelation: Int64 -> Pixelation,
                                       parseFloat: string -> Option<real>, formatFloat: real -> string)
    requires Standard(cols)
    requires forall i :: 0 <= i < |names| ==>
      names[i] in taxa && Stored(names[i], taxa[names[i]], pix.len) && taxa[names[i]].rng != map[]
    requires forall i, j :: 0 <= i < j < |names| ==> names[i] != names[j]
    requires ExactIn(parseFloat, formatFloat, taxa)
    requires ReadyFor(start, pix, newPixelation) && start.taxa == map[] && start.max == map[]
    ensures var r := Run(start, cols, |HeaderFields|, TaxaRows(taxa, names, FormatInt(pix.equator), formatFloat),
                         newPixelation, parseFloat);
      r.Ok? && Collected(start, r.value, pix, taxa, names, newPixelation)
    decreases |names|
  {
    if names == [] {
      assert Within(taxa, names) == map[];
    } else {
      var init := names[..|names| - 1];
      assert forall i :: 0 <= i < |init| ==> init[i] == names[i];
      TaxaRowsRun(start, cols, pix, taxa, init, newPixelation, parseFloat, formatFloat);
      var mid := Run(start, cols, |HeaderFields|, TaxaRows(taxa, init, FormatInt(pix.equator), formatFloat),
                     newPixelation, parseFloat).value;
      TaxaRowsSnoc(start, mid, cols, pix, taxa, names, newPixelation, parseFloat, formatFloat);
    }
  }

  /** Ranges already at maximum 1 pass the final scaling unchanged. */
  lemma RescaleNormalised(taxa: map<string, Taxon>, max: map<string, real>)
    requires forall n :: n in taxa && taxa[n].tp == Range ==>
      taxa[n].rng != map[] && Normalised(taxa[n].rng) && MaxFor(max, n) == MaxOf(taxa[n].rng)
    ensures !ZeroMax(taxa, max)
    ensures Rescale(taxa, max) == taxa
  {
    forall n | n in taxa && taxa[n].tp == Range ensures MaxFor(max, n) == 1.0 {
      NormalisedMax(taxa[n].rng);
    }
  }

  /** The taxa of a collection in name order: each once, and all of them. */
  lemma SortedNamesCover(taxa: map<string, Taxon>)
    ensures var names := SortedNames(taxa.Keys);
      && (forall i :: 0 <= i < |names| ==> names[i] in taxa)
      && (forall i, j :: 0 <= i < j < |names| ==> names[i] != names[j])
      && Within(taxa, names) == taxa
      && (taxa != map[] ==> names != [])
  {
    var names := SortedNames(taxa.Keys);
    BeforeOrder();
    if taxa != map[] {
      var k :| k in taxa;
      assert k in names;
    }
  }

  /** Every taxon of a well-formed collection, taken in name order, is stored. */
  lemma SortedNamesStored(pix: Pixelation, taxa: map<string, Taxon>, names: seq<string>)
    requires WellFormed(pix, taxa)
    requires forall n :: n in taxa ==> taxa[n].rng != map[]
    requires forall i :: 0 <= i < |names| ==> names[i] in taxa
    ensures forall i :: 0 <= i < |names| ==>
      names[i] in taxa && Stored(names[i], taxa[names[i]], pix.len) && taxa[names[i]].rng != map[]
  {
    forall i | 0 <= i < |names|
      ensures names[i] in taxa && Stored(names[i], taxa[names[i]], pix.len) && taxa[names[i]].rng != map[]
    {
      var k := names[i];
      assert k in taxa;
    }
  }

  /**
   * Once all taxa are read, each one's running maximum is the maximum of its
   * densities, so normalised ranges pass the final scaling unchanged.
   */
  lemma CollectedRescale(start: Reading, st: Reading, pix: Pixelation, taxa: map<string, Taxon>, names: seq<string>,
                         newPixelation: Int64 -> Pixelation)
    requires Collected(start, st, pix, taxa, names, newPixelation) && Within(taxa, names) == taxa
    requires forall n :: n in taxa && taxa[n].tp == Range ==> taxa[n].rng != map[] && Normalised(taxa[n].rng)
    ensures !ZeroMax(st.taxa, st.max) && Rescale(st.taxa, st.max) == taxa
  {
    forall n | n in taxa ensures MaxFor(st.max, n) == MaxOf(taxa[n].rng) {
      assert n in names;
    }
    RescaleNormalised(st.taxa, st.max);
  }

  /** A file starting with the header `TSV` writes has the standard column map. */
  lemma HeaderFile(rows: seq<seq<string>>)
    requires rows != [] && rows[0] == HeaderFields
    ensures |rows[0]| == |HeaderFields| && Standard(Columns(rows[0]))
  {
    var head := rows[0];
    HeaderColumns(head, Columns(head));
  }

  /** `Decode` of a file with the standard header once its data rows have been read. */
  lemma DecodeAfterRun(rows: seq<seq<string>>, given: Option<Pixelation>, st: Reading,
                       newPixelation: Int64 -> Pixelation, parseFloat: string -> Option<real>)
    requires rows != [] && |rows[0]| == |HeaderFields| && Standard(Columns(rows[0]))
    requires Run(Reading(given, None, map[], map[]), Columns(rows[0]), |rows[0]|, rows[1..], newPixelation, parseFloat)
      == Ok(st)
    requires st.coll.Some? && !ZeroMax(st.taxa, st.max)
    ensures Decode(rows, given, newPixelation, parseFloat) == Ok(Decoded(st.coll.value, Rescale(st.taxa, st.max)))
  {
    assert FirstMissing(HeaderFields, Columns(rows[0])).None?;
  }

  /** Reading back the header and the rows of the taxa `names`, each stored, once each, and all of them. */
  lemma DecodeRows(pix: Pixelation, taxa: map<string, Taxon>, names: seq<string>, given: Option<Pixelation>,
                   newPixelation: Int64 -> Pixelation, parseFloat: string -> Option<real>, formatFloat: real -> string)
    requires forall i :: 0 <= i < |names| ==>
      names[i] in taxa && Stored(names[i], taxa[names[i]], pix.len) && taxa[names[i]].rng != map[]
    requires forall i, j :: 0 <= i < j < |names| ==> names[i] != names[j]
    requires Within(taxa, names) == taxa && names != []
    requires forall n :: n in taxa && taxa[n].tp == Range ==> Normalised(taxa[n].rng)
    requires given == Some(pix) || (given == None && newPixelation(pix.equator) == pix)
    requires ExactIn(parseFloat, formatFloat, taxa)
    ensures Decode([HeaderFields] + TaxaRows(taxa, names, FormatInt(pix.equator), formatFloat), given, newPixelation, parseFloat)
      == Ok(Decoded(pix, taxa))
  {
    var rows := [HeaderFields] + TaxaRows(taxa, names, FormatInt(pix.equator), formatFloat);
    assert rows[0] == HeaderFields && rows[1..] == TaxaRows(taxa, names, FormatInt(pix.equator), formatFloat);
    HeaderFile(rows);
    var cols := Columns(rows[0]);
    var start := Reading(given, None, map[], map[]);
    TaxaRowsRun(start, cols, pix, taxa, names, newPixelation, parseFloat, formatFloat);
    var st := Run(start, cols, |HeaderFields|, rows[1..], newPixelation, parseFloat).value;
    CollectedRescale(start, st, pix, taxa, names, newPixelation);
    DecodeAfterRun(rows, given, st, newPixelation, parseFloat);
  }

  /**
   * Round trip: reading back what `TSV` writes gives the same collection, for
   * a well-formed, non-empty collection whose taxa all have some pixel and
   * whose ranges are normalised, when densities are written exactly and the
   * reader uses (or rebuilds from the equator) the collection's pixelation.
   */
  lemma RoundTrip(pix: Pixelation, taxa: map<string, Taxon>, given: Option<Pixelation>,
                  newPixelation: Int64 -> Pixelation, parseFloat: string -> Option<real>, formatFloat: real -> string)
    requires WellFormed(pix, taxa) && taxa != map[]
    requires forall n :: n in taxa ==> taxa[n].rng != map[]
    requires forall n :: n in taxa && taxa[n].tp == Range ==> Normalised(taxa[n].rng)
    requires given == Some(pix) || (given == None && newPixelation(pix.equator) == pix)
    requires ExactIn(parseFloat, formatFloat, taxa)
    ensures Decode(Encode(pix, taxa, formatFloat), given, newPixelation, parseFloat) == Ok(Decoded(pix, taxa))
  {
    var names := SortedNames(taxa.Keys);
    SortedNamesCover(taxa);
    SortedNamesStored(pix, taxa, names);
    DecodeRows(pix, taxa, names, given, newPixelation, parseFloat, formatFloat);
  }

  /**
   * An empty collection does not survive the round trip: `TSV` writes only the
   * header, and `ReadTSV` rejects a file without data rows.
   */
  lemma EmptyNoData(pix: Pixelation, given: Option<Pixelation>, newPixelation: Int64 -> Pixelation,
                    parseFloat: string -> Option<real>, formatFloat: real -> string)
    ensures Decode(Encode(pix, map[], formatFloat), given, newPixelation, parseFloat) == Err(NoData)
  {
    var rows := Encode(pix, map[], formatFloat);
    assert SortedNames({}) == [];
    assert rows == [HeaderFields];
    HeaderFile(rows);
    DecodeNoRows(rows, given, newPixelation, parseFloat);
  }

  /** A file with the standard header and no data row is rejected for want of data. */
  lemma DecodeNoRows(rows: seq<seq<string>>, given: Option<Pixelation>,
                     newPixelation: Int64 -> Pixelation, parseFloat: string -> Option<real>)
    requires |rows| == 1 && |rows[0]| == |HeaderFields| && Standard(Columns(rows[0]))
    ensures Decode(rows, given, newPixelation, parseFloat) == Err(NoData)
  {
    assert FirstMissing(HeaderFields, Columns(rows[0])).None?;
    assert rows[1..] == [];
  }

  /** Reading two rows of one range taxon: the state after both. */
  lemma TwoRows(st: Reading, cols: map<string, nat>, first: seq<string>, second: seq<string>,
                newPixelation: Int64 -> Pixelation, parseFloat: string -> Option<real>)
    requires Indexed(cols, |HeaderFields|)
    ensures Run(st, cols, |HeaderFields|, [first, second], newPixelation, parseFloat)
      == match Step(st, cols, |HeaderFields|, first, newPixelation, parseFloat)
         case Err(e) => Err(e)
         case Ok(mid) => Run(mid, cols, |HeaderFields|, [second], newPixelation, parseFloat)
  {
    assert [first, second] == [first] + [second];
    RunAppend(st, cols, |HeaderFields|, [first], [second], newPixelation, parseFloat);
    RunOne(st, cols, |HeaderFields|, first, newPixelation, parseFloat);
  }

  /** A density of 1 over a maximum of 2 is one half, and a lone half is not normalised. */
  lemma HalvedPixel(px: Int64)
    ensures Scale(map[px := 1.0], 2.0) == map[px := 0.5]
    ensures !Normalised(map[px := 0.5])
  {
    var r := map[px := 0.5];
    assert px in r && r[px] != 1.0;
    assert forall p :: p in r ==> p == px;
  }

  /** The final scaling of a collection holding one range taxon with a positive maximum other than 1. */
  lemma RescaleSingle(name: string, u: Taxon, m: real)
    requires u.tp == Range && m != 0.0 && m != 1.0
    ensures !ZeroMax(map[name := u], map[name := m])
    ensures Rescale(map[name := u], map[name := m]) == map[name := u.(rng := Scale(u.rng, m))]
  {
  }

  /** The first row of `RepeatedPixel` starts the collection with the taxon at density 2. */
  lemma RepeatedFirst(cols: map<string, nat>, pix: Pixelation, t: Taxon, px: Int64, given: Option<Pixelation>,
                      newPixelation: Int64 -> Pixelation, parseFloat: string -> Option<real>, formatFloat: real -> string)
    requires Standard(cols)
    requires Stored(t.name, t, pix.len) && t.tp == Range && t.rng == map[px := 2.0]
    requires given == Some(pix) || (given == None && newPixelation(pix.equator) == pix)
    requires parseFloat(formatFloat(2.0)) == Some(2.0) && parseFloat(formatFloat(1.0)) == Some(1.0)
    ensures Step(Reading(given, None, map[], map[]), cols, |HeaderFields|, Row(t, px, FormatInt(pix.equator), formatFloat),
                 newPixelation, parseFloat)
      == Ok(Reading(Some(pix), Some(pix), map[t.name := t], map[t.name := 2.0]))
  {
    var start := Reading(given, None, map[], map[]);
    StepRow(start, cols, pix, t, px, newPixelation, parseFloat, formatFloat);
    assert Existing(start.taxa, t.name, t.tp, t.age).rng[px := 2.0] == t.rng;
  }

  /** The second row of `RepeatedPixel` overwrites the density and keeps the maximum. */
  lemma RepeatedSecond(cols: map<string, nat>, pix: Pixelation, t: Taxon, px: Int64,
                       newPixelation: Int64 -> Pixelation, parseFloat: string -> Option<real>, formatFloat: real -> string)
    requires Standard(cols)
    requires Stored(t.name, t, pix.len) && t.tp == Range && t.rng == map[px := 2.0]
    requires parseFloat(formatFloat(2.0)) == Some(2.0) && parseFloat(formatFloat(1.0)) == Some(1.0)
    ensures var u := t.(rng := map[px := 1.0]);
      var mid := Reading(Some(pix), Some(pix), map[t.name := t], map[t.name := 2.0]);
      Run(mid, cols, |HeaderFields|, [Row(u, px, FormatInt(pix.equator), formatFloat)], newPixelation, parseFloat)
      == Ok(Reading(Some(pix), Some(pix), map[t.name := u], map[t.name := 2.0]))
  {
    var u := t.(rng := map[px := 1.0]);
    var mid := Reading(Some(pix), Some(pix), map[t.name := t], map[t.name := 2.0]);
    assert px in t.rng && u.rng.Keys == t.rng.Keys;
    StepRow(mid, cols, pix, u, px, newPixelation, parseFloat, formatFloat);
    RunOne(mid, cols, |HeaderFields|, Row(u, px, FormatInt(pix.equator), formatFloat), newPixelation, parseFloat);
    RepeatedSecondState(mid, t, px, pix);
  }

  /** The state after the second row of `RepeatedPixel`, as `StepRow` describes it. */
  lemma RepeatedSecondState(mid: Reading, t: Taxon, px: Int64, pix: Pixelation)
    requires t.rng == map[px := 2.0]
    requires mid == Reading(Some(pix), Some(pix), map[t.name := t], map[t.name := 2.0])
    ensures var u := t.(rng := map[px := 1.0]);
      var tax := Existing(mid.taxa, u.name, u.tp, u.age);
      Reading(Some(pix), Some(pix), mid.taxa[u.name := tax.(rng := tax.rng[px := u.rng[px]])],
              if MaxFor(mid.max, u.name) < u.rng[px] then mid.max[u.name := u.rng[px]] else mid.max)
      == Reading(Some(pix), Some(pix), map[t.name := u], map[t.name := 2.0])
  {
    assert t.rng[px := 1.0] == map[px := 1.0];
  }

  /** Reading the two rows of `RepeatedPixel`: the later density stays, the maximum is the earlier one. */
  lemma RepeatedPixelRun(cols: map<string, nat>, pix: Pixelation, t: Taxon, px: Int64, given: Option<Pixelation>,
                         newPixelation: Int64 -> Pixelation, parseFloat: string -> Option<real>, formatFloat: real -> string)
    requires Standard(cols)
    requires Stored(t.name, t, pix.len) && t.tp == Range && t.rng == map[px := 2.0]
    requires given == Some(pix) || (given == None && newPixelation(pix.equator) == pix)
    requires parseFloat(formatFloat(2.0)) == Some(2.0) && parseFloat(formatFloat(1.0)) == Some(1.0)
    ensures var u := t.(rng := map[px := 1.0]);
      var eq := FormatInt(pix.equator);
      Run(Reading(given, None, map[], map[]), cols, |HeaderFields|,
          [Row(t, px, eq, formatFloat), Row(u, px, eq, formatFloat)], newPixelation, parseFloat)
      == Ok(Reading(Some(pix), Some(pix), map[t.name := u], map[t.name := 2.0]))
  {
    var u := t.(rng := map[px := 1.0]);
    var eq := FormatInt(pix.equator);
    TwoRows(Reading(given, None, map[], map[]), cols, Row(t, px, eq, formatFloat), Row(u, px, eq, formatFloat),
            newPixelation, parseFloat);
    RepeatedFirst(cols, pix, t, px, given, newPixelation, parseFloat, formatFloat);
    RepeatedSecond(cols, pix, t, px, newPixelation, parseFloat, formatFloat);
  }

  /** The file of `RepeatedPixel`: a standard header and the two rows. */
  lemma RepeatedPixelRows(rows: seq<seq<string>>, pix: Pixelation, t: Taxon, px: Int64, given: Option<Pixelation>,
                          newPixelation: Int64 -> Pixelation, parseFloat: string -> Option<real>, formatFloat: real -> string)
    requires Stored(t.name, t, pix.len) && t.tp == Range && t.rng == map[px := 2.0]
    requires given == Some(pix) || (given == None && newPixelation(pix.equator) == pix)
    requires parseFloat(formatFloat(2.0)) == Some(2.0) && parseFloat(formatFloat(1.0)) == Some(1.0)
    requires var eq := FormatInt(pix.equator);
      rows == [HeaderFields, Row(t, px, eq, formatFloat), Row(t.(rng := map[px := 1.0]), px, eq, formatFloat)]
    requires Standard(Columns(rows[0]))
    ensures Run(Reading(given, None, map[], map[]), Columns(rows[0]), |rows[0]|, rows[1..], newPixelation, parseFloat)
      == Ok(Reading(Some(pix), Some(pix), map[t.name := t.(rng := map[px := 1.0])], map[t.name := 2.0]))
  {
    var head := rows[0];
    var eq := FormatInt(pix.equator);
    assert rows[1..] == [Row(t, px, eq, formatFloat), Row(t.(rng := map[px := 1.0]), px, eq, formatFloat)];
    RepeatedPixelRun(Columns(head), pix, t, px, given, newPixelation, parseFloat, formatFloat);
  }

  /** Decoding a file that reads as one range taxon whose maximum is 2. */
  lemma DecodeSingle(rows: seq<seq<string>>, pix: Pixelation, u: Taxon, given: Option<Pixelation>,
                     newPixelation: Int64 -> Pixelation, parseFloat: string -> Option<real>)
    requires rows != [] && |rows[0]| == |HeaderFields| && Standard(Columns(rows[0]))
    requires Run(Reading(given, None, map[], map[]), Columns(rows[0]), |rows[0]|, rows[1..], newPixelation, parseFloat)
      == Ok(Reading(Some(pix), Some(pix), map[u.name := u], map[u.name := 2.0]))
    ensures Decode(rows, given, newPixelation, parseFloat)
      == Ok(Decoded(pix, Rescale(map[u.name := u], map[u.name := 2.0])))
  {
    var st := Reading(Some(pix), Some(pix), map[u.name := u], map[u.name := 2.0]);
    assert !ZeroMax(st.taxa, st.max);
    DecodeAfterRun(rows, given, st, newPixelation, parseFloat);
  }

  /**
   * A pixel listed twice for a range taxon keeps the later density but the
   * larger maximum: densities 2 then 1 at the same pixel read as 0.5, so the
   * range read back has no pixel at 1 and is not normalised.
   */
  lemma RepeatedPixel(pix: Pixelation, name: string, age: Int64, px: Int64, rows: seq<seq<string>>,
                      given: Option<Pixelation>, newPixelation: Int64 -> Pixelation,
                      parseFloat: string -> Option<real>, formatFloat: real -> string)
    requires name != "" && Canon(name) == name && px < pix.len
    requires given == Some(pix) || (given == None && newPixelation(pix.equator) == pix)
    requires parseFloat(formatFloat(2.0)) == Some(2.0) && parseFloat(formatFloat(1.0)) == Some(1.0)
    requires var t := Taxon(name, Range, age, map[px := 2.0]);
      var eq := FormatInt(pix.equator);
      rows == [HeaderFields, Row(t, px, eq, formatFloat), Row(t.(rng := map[px := 1.0]), px, eq, formatFloat)]
    ensures Decode(rows, given, newPixelation, parseFloat)
      == Ok(Decoded(pix, map[name := Taxon(name, Range, age, map[px := 0.5])]))
    ensures !Normalised(map[px := 0.5])
  {
    var t := Taxon(name, Range, age, map[px := 2.0]);
    var u := t.(rng := map[px := 1.0]);
    HeaderFile(rows);
    RepeatedPixelRows(rows, pix, t, px, given, newPixelation, parseFloat, formatFloat);
    DecodeSingle(rows, pix, u, given, newPixelation, parseFloat);
    HalvedPixel(px);
    RescaleSingle(name, u, 2.0);
  }
}
