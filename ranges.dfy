/**
 * The in-memory range collection (ranges.go): a fixed pixelation and a map
 * from canonical taxon name to the taxon's range record.
 */
module Ranges {
  import opened Wrappers
  import opened Numerals
  import opened Names
  import opened Sorting

  /** The kind of a range map: presence points or a continuous density. */
  datatype RangeType = Points | Range

  /** The text of a range type (`Points Type = "points"`, `Range Type = "range"`). */
  function TypeName(t: RangeType): string {
    match t
    case Points => "points"
    case Range => "range"
  }

  /**
   * An isolatitude pixelation of the earth, supplied by an external library:
   * the number of pixels on the equator, the total number of pixels and the
   * pixel that holds a latitude/longitude point.
   */
  datatype Pixelation = Pixelation(equator: Int64, len: Int64, cell: (real, real) -> int) {
    /** Every point falls in one of the pixels. */
    ghost predicate Valid() {
      forall lat: real, lon: real :: 0 <= cell(lat, lon) < len
    }

    /** `pix.Pixel(lat, lon).ID()`. */
    function Pixel(lat: real, lon: real): (id: Int64)
      requires Valid()
      ensures 0 <= id < len
    {
      cell(lat, lon)
    }
  }

  /** A taxon's range record: name, type, age (in years) and pixel-to-density map. */
  datatype Taxon = Taxon(name: string, tp: RangeType, age: Int64, rng: map<Int64, real>)

  /**
   * What every stored record satisfies: it is keyed by its own canonical,
   * non-blank name, its pixels lie below the pixelation's length, and a points
   * record is a non-empty set of pixels each at density 1.
   */
  ghost predicate Stored(k: string, t: Taxon, len: int) {
    && k != "" && Canon(k) == k && t.name == k
    && (forall px :: px in t.rng ==> px < len)
    && (t.tp == Points ==> t.rng != map[] && forall px :: px in t.rng ==> t.rng[px] == 1.0)
  }

  ghost predicate WellFormed(pix: Pixelation, taxa: map<string, Taxon>) {
    pix.Valid() && forall k :: k in taxa ==> Stored(k, taxa[k], pix.len)
  }

  /** Every density is at most 1 and, unless the map is empty, one of them is exactly 1. */
  ghost predicate Normalised(rng: map<Int64, real>) {
    && (forall px :: px in rng ==> rng[px] <= 1.0)
    && (rng != map[] ==> exists px :: px in rng && rng[px] == 1.0)
  }

  /** The running maximum of `Set`: the largest density, or 0 when none is positive. */
  ghost function MaxOf(rng: map<Int64, real>): (r: real)
    ensures 0.0 <= r
    ensures forall px :: px in rng ==> rng[px] <= r
    ensures r == 0.0 || exists px :: px in rng && rng[px] == r
    decreases rng.Keys
  {
    if rng == map[] then 0.0
    else
      var px :| px in rng;
      var others := rng - {px};
      var rest := MaxOf(others);
      assert forall q :: q in rng && q != px ==> q in others && others[q] == rng[q];
      if rng[px] > rest then rng[px] else rest
  }

  /** A value with the three properties of `MaxOf` is `MaxOf`. */
  lemma MaxOfUnique(rng: map<Int64, real>, m: real)
    requires 0.0 <= m
    requires forall px :: px in rng ==> rng[px] <= m
    requires m == 0.0 || exists px :: px in rng && rng[px] == m
    ensures m == MaxOf(rng)
  {
  }

  /** Adding a new pixel raises the maximum to its density when that is larger. */
  lemma MaxOfAdd(rng: map<Int64, real>, px: Int64, v: real)
    requires px !in rng
    ensures MaxOf(rng[px := v]) == if MaxOf(rng) < v then v else MaxOf(rng)
  {
    var m := MaxOf(rng);
    var r := rng[px := v];
    if m < v {
      assert px in r && r[px] == v;
      MaxOfUnique(r, v);
    } else if m != 0.0 {
      var top :| top in rng && rng[top] == m;
      assert top in r && r[top] == m;
      MaxOfUnique(r, m);
    } else {
      MaxOfUnique(r, m);
    }
  }

  /** The maximum of a non-empty normalised range is 1. */
  lemma NormalisedMax(rng: map<Int64, real>)
    requires Normalised(rng) && rng != map[]
    ensures MaxOf(rng) == 1.0
  {
    MaxOfUnique(rng, 1.0);
  }

  /** Every density divided by `max`. */
  function Scale(rng: map<Int64, real>, max: real): (r: map<Int64, real>)
    requires rng != map[] ==> max != 0.0
    ensures r.Keys == rng.Keys
  {
    map px | px in rng :: rng[px] / max
  }

  /** Dividing by the maximum leaves every density at most 1 and the largest at exactly 1. */
  lemma ScaleByMaxNormalises(rng: map<Int64, real>)
    requires rng != map[] ==> MaxOf(rng) > 0.0
    ensures Normalised(Scale(rng, MaxOf(rng)))
  {
    var m := MaxOf(rng);
    if rng != map[] {
      var s := Scale(rng, m);
      forall px | px in s ensures s[px] <= 1.0 {
        DivideAtMostOne(rng[px], m);
      }
      var top :| top in rng && rng[top] == m;
      DivideSelf(m);
    }
  }

  lemma DivideSelf(m: real)
    requires m != 0.0
    ensures m / m == 1.0
  {
  }

  lemma DivideThenMultiply(p: real, m: real)
    requires m != 0.0
    ensures (p / m) * m == p
  {
  }

  lemma DivideAtMostOne(p: real, m: real)
    requires 0.0 < m && p <= m
    ensures p / m <= 1.0
  {
  }

  /**
   * The taxa after `Add` puts a point in pixel `px` for the taxon keyed by the
   * canonical name `k`.
   */
  function WithPoint(taxa: map<string, Taxon>, k: string, px: Int64): (r: map<string, Taxon>)
    ensures forall n :: n != k ==> (n in r <==> n in taxa) && (n in r ==> r[n] == taxa[n])
    ensures k == "" || (k in taxa && taxa[k].tp == Range) ==> r == taxa
    ensures k != "" ==> k in r
    ensures k != "" && k !in taxa ==> r[k] == Taxon(k, Points, 0, map[px := 1.0])
    ensures k != "" && k in taxa && taxa[k].tp == Points ==>
      var t, u := taxa[k], r[k];
      && u.name == t.name && u.tp == Points && u.age == t.age
      && u.rng.Keys == t.rng.Keys + {px} && u.rng[px] == 1.0
      && forall q :: q in t.rng && q != px ==> u.rng[q] == t.rng[q]
  {
    if k == "" then taxa
    else if k !in taxa then taxa[k := Taxon(k, Points, 0, map[px := 1.0])]
    else if taxa[k].tp != Points then taxa
    else taxa[k := taxa[k].(rng := taxa[k].rng[px := 1.0])]
  }

  /** Adding the same point twice is the same as adding it once. */
  lemma WithPointIdempotent(taxa: map<string, Taxon>, k: string, px: Int64)
    ensures WithPoint(WithPoint(taxa, k, px), k, px) == WithPoint(taxa, k, px)
  {
    var once := WithPoint(taxa, k, px);
    if k != "" && once[k].tp == Points {
      var t := once[k];
      assert t.rng[px := 1.0] == t.rng;
      assert t.(rng := t.rng) == t;
      assert once[k := t] == once;
    }
  }

  /** The taxa after `Set` stores `rng` of the given age under the canonical name `k`. */
  ghost function WithRange(taxa: map<string, Taxon>, k: string, age: Int64, rng: map<Int64, real>): (r: map<string, Taxon>)
    requires rng != map[] ==> MaxOf(rng) > 0.0
    ensures forall n :: n != k ==> (n in r <==> n in taxa) && (n in r ==> r[n] == taxa[n])
    ensures k == "" ==> r == taxa
    ensures k != "" ==> k in r
    ensures k != "" ==>
      var u := r[k];
      && u.name == k && u.tp == Range && u.age == age
      && u.rng == Scale(rng, MaxOf(rng))
      && Normalised(u.rng)
  {
    if k == "" then taxa
    else
      ScaleByMaxNormalises(rng);
      taxa[k := Taxon(k, Range, age, Scale(rng, MaxOf(rng)))]
  }

  /** Multiplying a scaled density by the divisor gives back the original. */
  lemma ScaleInverse(rng: map<Int64, real>, max: real)
    requires rng != map[] ==> max != 0.0
    ensures forall px :: px in rng ==> Scale(rng, max)[px] * max == rng[px]
  {
    forall px | px in rng ensures Scale(rng, max)[px] * max == rng[px] {
      DivideThenMultiply(rng[px], max);
    }
  }

  /** Adding a point inside the pixelation keeps the collection well formed. */
  lemma WithPointWellFormed(pix: Pixelation, taxa: map<string, Taxon>, k: string, px: Int64)
    requires WellFormed(pix, taxa) && Canon(k) == k && px < pix.len
    ensures WellFormed(pix, WithPoint(taxa, k, px))
  {
    var r := WithPoint(taxa, k, px);
    if k != "" && !(k in taxa && taxa[k].tp == Range) {
      PointStored(pix, taxa, r, k, px);
      StoredAt(pix, taxa, r, k);
    }
  }

  /** Setting a range inside the pixelation keeps the collection well formed. */
  lemma WithRangeWellFormed(pix: Pixelation, taxa: map<string, Taxon>, k: string, age: Int64, rng: map<Int64, real>)
    requires WellFormed(pix, taxa) && Canon(k) == k
    requires forall px :: px in rng ==> px < pix.len
    requires rng != map[] ==> MaxOf(rng) > 0.0
    ensures WellFormed(pix, WithRange(taxa, k, age, rng))
  {
    var r := WithRange(taxa, k, age, rng);
    if k != "" {
      StoredAt(pix, taxa, r, k);
    }
  }

  lemma PointStored(pix: Pixelation, taxa: map<string, Taxon>, r: map<string, Taxon>, k: string, px: Int64)
    requires WellFormed(pix, taxa) && Canon(k) == k && k != "" && px < pix.len
    requires !(k in taxa && taxa[k].tp == Range)
    requires r == WithPoint(taxa, k, px)
    ensures k in r && Stored(k, r[k], pix.len)
  {
    var u := r[k];
    assert px in u.rng;
    if k in taxa {
      assert Stored(k, taxa[k], pix.len);
    }
  }

  /** A map that agrees with a well-formed one except at a stored key `k` is well formed. */
  lemma StoredAt(pix: Pixelation, taxa: map<string, Taxon>, r: map<string, Taxon>, k: string)
    requires WellFormed(pix, taxa)
    requires forall n :: n != k ==> (n in r <==> n in taxa) && (n in r ==> r[n] == taxa[n])
    requires k in r && Stored(k, r[k], pix.len)
    ensures WellFormed(pix, r)
  {
  }

  /** The taxa after `Delete` removes the canonical name `k`. */
  function Without(taxa: map<string, Taxon>, k: string): (r: map<string, Taxon>)
    ensures k !in r
    ensures forall n :: n != k ==> (n in r <==> n in taxa) && (n in r ==> r[n] == taxa[n])
  {
    taxa - {k}
  }

  /** The taxon names in increasing order (the order of `Taxa`). */
  ghost function SortedNames(keys: set<string>): (r: seq<string>)
    ensures Increasing(r, Before)
    ensures forall n :: n in r <==> n in keys
  {
    BeforeOrder();
    Ordered(keys, Before)
  }

  /** The pixel ids in increasing order (the order in which `TSV` writes them). */
  ghost function SortedPixels(keys: set<Int64>): (r: seq<Int64>)
    ensures Increasing(r, PixelBefore)
    ensures forall px :: px in r <==> px in keys
  {
    PixelOrder();
    Ordered(keys, PixelBefore)
  }

  /** Go's `<` on pixel ids. */
  predicate PixelBefore(a: Int64, b: Int64) { a < b }

  lemma PixelOrder()
    ensures StrictTotalOrder(PixelBefore)
  {
  }

  /** A collection of taxon ranges over one pixelation. */
  class Collection {
    const pix: Pixelation
    var taxa: map<string, Taxon>

    ghost predicate Valid()
      reads this
    {
      WellFormed(pix, taxa)
    }

    /** `New(pix)`: an empty collection. */
    constructor (pix: Pixelation)
      ensures this.pix == pix && taxa == map[]
      ensures pix.Valid() ==> Valid()
    {
      this.pix := pix;
      taxa := map[];
    }

    /** `HasTaxon(name)`. */
    function HasTaxon(name: string): (b: bool)
      reads this
      ensures b ==> Canon(name) != "" && Canon(name) in taxa
      ensures Canon(name) != "" && Canon(name) in taxa ==> b
    {
      var k := Canon(name);
      if k == "" then false else k in taxa
    }

    /** `Age(name)`: the stored age, or 0 for a blank or unknown name. */
    function Age(name: string): (a: Int64)
      reads this
      ensures !HasTaxon(name) ==> a == 0
      ensures HasTaxon(name) ==> a == taxa[Canon(name)].age
    {
      var k := Canon(name);
      if k == "" then 0
      else if k !in taxa then 0
      else taxa[k].age
    }

    /** `Type(name)`: `None` stands for Go's empty `Type("")` of a blank or unknown name. */
    function Type(name: string): (t: Option<RangeType>)
      reads this
      ensures t.Some? <==> HasTaxon(name)
      ensures t.Some? ==> t.value == taxa[Canon(name)].tp
    {
      var k := Canon(name);
      if k == "" then None
      else if k !in taxa then None
      else Some(taxa[k].tp)
    }

    /** `Range(name)`: `None` stands for Go's nil map of a blank or unknown name. */
    function Range(name: string): (r: Option<map<Int64, real>>)
      reads this
      ensures r.Some? <==> HasTaxon(name)
      ensures r.Some? ==> r.value == taxa[Canon(name)].rng
    {
      var k := Canon(name);
      if k == "" then None
      else if k !in taxa then None
      else Some(taxa[k].rng)
    }

    /**
     * `Add(name, age, lat, lon)`: records a presence point. A new taxon is a
     * points taxon of age 0 (the age argument is not stored); a range taxon is
     * left alone.
     */
    method Add(name: string, age: Int64, lat: real, lon: real)
      requires Valid()
      modifies this
      ensures Valid()
      ensures taxa == WithPoint(old(taxa), Canon(name), pix.Pixel(lat, lon))
      ensures old(Type(name)) == Some(RangeType.Range) ==> taxa == old(taxa)
      ensures Canon(name) != "" && old(Type(name)) != Some(RangeType.Range) ==>
        Type(name) == Some(Points) && Range(name).value[pix.Pixel(lat, lon)] == 1.0
    {
      var k := Canon(name);
      CanonIdempotent(name);
      WithPointWellFormed(pix, taxa, k, pix.Pixel(lat, lon));
      ghost var before := taxa;
      if k == "" {
        return;
      }
      var tax: Taxon;
      if k in taxa {
        tax := taxa[k];
      } else {
        tax := Taxon(k, Points, 0, map[]);
        taxa := taxa[k := tax];
      }
      if tax.tp != Points {
        assert taxa == WithPoint(before, k, pix.Pixel(lat, lon));
        return;
      }
      var px := pix.Pixel(lat, lon);
      ghost var stored := taxa;
      taxa := taxa[k := tax.(rng := tax.rng[px := 1.0])];
      PointLands(before, stored, k, tax, px);
    }

    /**
     * `Set(name, age, rng)`: replaces the taxon's record by a range map of the
     * given age, every density divided by the largest one.
     */
    method Set(name: string, age: Int64, rng: map<Int64, real>)
      requires Valid()
      requires forall px :: px in rng ==> px < pix.len
      requires rng != map[] ==> MaxOf(rng) > 0.0
      modifies this
      ensures Valid()
      ensures taxa == WithRange(old(taxa), Canon(name), age, rng)
      ensures Canon(name) != "" ==>
        Type(name) == Some(RangeType.Range) && Age(name) == age && Range(name).value.Keys == rng.Keys
    {
      var k := Canon(name);
      CanonIdempotent(name);
      WithRangeWellFormed(pix, taxa, k, age, rng);
      if k == "" {
        return;
      }
      var max := LargestDensity(rng);
      var scaled := Divide(rng, max);
      taxa := taxa[k := Taxon(k, RangeType.Range, age, scaled)];
    }

    /** `Delete(name)`: removes the taxon, if any. */
    method Delete(name: string)
      requires Valid()
      modifies this
      ensures Valid()
      ensures Canon(name) != "" ==> taxa == Without(old(taxa), Canon(name))
      ensures Canon(name) == "" ==> taxa == old(taxa)
      ensures !HasTaxon(name)
    {
      var k := Canon(name);
      if k == "" {
        return;
      }
      taxa := taxa - {k};
    }

    /** `Taxa()`: the names of all taxa, sorted and without repetitions. */
    method Taxa() returns (ls: seq<string>)
      requires Valid()
      ensures Increasing(ls, Before)
      ensures forall n :: n in ls <==> n in taxa
      ensures ls == SortedNames(taxa.Keys)
    {
      var names: seq<string> := [];
      var todo := taxa.Keys;
      while todo != {}
        invariant todo <= taxa.Keys
        invariant forall n :: n in names <==> n in taxa && n !in todo
        invariant forall n :: multiset(names)[n] <= 1
        decreases todo
      {
        var k :| k in todo;
        assert k !in names;
        names := names + [taxa[k].name];
        todo := todo - {k};
      }
      BeforeOrder();
      ls := Sort(names, Before);
      forall n ensures n in ls <==> n in names {
        assert n in ls <==> n in multiset(ls);
        assert n in names <==> n in multiset(names);
      }
      SortedOnceIsOrdered(ls, taxa.Keys, Before);
    }
  }

  /** The first loop of `Set`: the largest density, starting from 0. */
  method LargestDensity(rng: map<Int64, real>) returns (max: real)
    ensures max == MaxOf(rng)
  {
    max := 0.0;
    var todo := rng.Keys;
    while todo != {}
      invariant todo <= rng.Keys
      invariant 0.0 <= max
      invariant forall px :: px in rng && px !in todo ==> rng[px] <= max
      invariant max == 0.0 || exists px :: px in rng && px !in todo && rng[px] == max
      decreases todo
    {
      var px :| px in todo;
      if rng[px] > max {
        max := rng[px];
      }
      todo := todo - {px};
    }
    MaxOfUnique(rng, max);
  }

  /** The second loop of `Set`: every density divided by `max`. */
  method Divide(rng: map<Int64, real>, max: real) returns (scaled: map<Int64, real>)
    requires rng != map[] ==> max != 0.0
    ensures scaled == Scale(rng, max)
  {
    scaled := map[];
    var todo := rng.Keys;
    while todo != {}
      invariant todo <= rng.Keys
      invariant scaled.Keys == rng.Keys - todo
      invariant forall px :: px in scaled ==> scaled[px] == rng[px] / max
      decreases todo
    {
      var px :| px in todo;
      scaled := scaled[px := rng[px] / max];
      todo := todo - {px};
    }
  }

  /** The steps of `Collection.Add` that reach the point store compute `WithPoint`. */
  lemma PointLands(before: map<string, Taxon>, stored: map<string, Taxon>, k: string, tax: Taxon, px: Int64)
    requires k != "" && tax.tp == Points
    requires k in before ==> stored == before && tax == before[k]
    requires k !in before ==> stored == before[k := tax] && tax == Taxon(k, Points, 0, map[])
    ensures stored[k := tax.(rng := tax.rng[px := 1.0])] == WithPoint(before, k, px)
  {
    if k !in before {
      assert tax.rng[px := 1.0] == map[px := 1.0];
    }
  }
}
