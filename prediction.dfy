/**
 The feature assembler (prediction.py): turns one raw input record into the
 record of model columns, step by step on a one-row frame, as prediction.py
 does on its data frame.
 */
module Prediction {
  import opened Wrappers
  import opened FeatureUtils

  /** One cell of the one-row frame: a number, a missing number, or a category. */
  datatype Cell = Num(v: real) | NaN | Str(s: string)

  /** A row: column name to cell. */
  type Record = map<string, Cell>

  /** The assembled record: (column, cell) pairs in model-column order. */
  type Prepared = seq<(string, Cell)>

  /** Indexing a column the frame does not have. */
  datatype KeyError = KeyError(column: string)

  /** The columns the model expects, in its order (30 names). */
  const ModelColumns: seq<string> := [
    "city", "type", "squareMeters", "rooms", "floor", "floorCount",
    "buildYear", "latitude", "longitude", "centreDistance", "poiCount",
    "schoolDistance", "clinicDistance", "postOfficeDistance",
    "kindergartenDistance", "restaurantDistance", "collegeDistance",
    "pharmacyDistance", "ownership", "buildingMaterial", "condition",
    "hasParkingSpace", "hasBalcony", "hasElevator", "hasSecurity",
    "hasStorageRoom", "month", "year", "age", "floor_ratio"
  ]

  /** Numeric columns that are never rescaled. */
  const ColumnsToExclude: seq<string> := [
    "buildYear", "price", "year", "month", "latitude", "longitude",
    "floor", "floorCount", "floor_ratio"
  ]

  /** Age substituted when the derived age is missing or out of range. */
  const DefaultAge: real := 30.0

  /** Largest age accepted as plausible. */
  const MaxAge: real := 200.0

  predicate Distinct(s: seq<string>)
  {
    forall i, j :: 0 <= i < j < |s| ==> s[i] != s[j]
  }

  /** The four columns prediction.py indexes directly; an absent one raises. */
  predicate HasRequired(row: Record)
  {
    "year" in row && "buildYear" in row && "floor" in row && "floorCount" in row
  }

  /** Numeric dtype: a number or a missing number. */
  predicate IsNumeric(c: Cell)
  {
    c.Num? || c.NaN?
  }

  /**
   Conversion with unparseable values coerced to NaN; `parse` stands for the
   library's reading of a string as a number.
   */
  function ToNumeric(c: Cell, parse: string -> Option<real>): (r: Cell)
    ensures IsNumeric(r)
    ensures IsNumeric(c) ==> r == c
    ensures c.Str? ==> (r.Num? <==> parse(c.s).Some?)
    ensures c.Str? && r.Num? ==> Some(r.v) == parse(c.s)
  {
    match c
    case Str(s) => (match parse(s) case Some(v) => Num(v) case None => NaN)
    case _ => c
  }

  /** Cell subtraction; NaN wherever an operand is not a number. */
  function Sub(a: Cell, b: Cell): Cell
  {
    if a.Num? && b.Num? then Num(a.v - b.v) else NaN
  }

  /**
   Cell division followed by turning infinities into NaN: a zero denominator
   gives +inf, -inf or NaN (0/0), so every such case ends as NaN.
   */
  function DivFinite(a: Cell, b: Cell): Cell
  {
    if a.Num? && b.Num? && b.v != 0.0 then Num(a.v / b.v) else NaN
  }

  /** Replaces a missing number by `d`. */
  function FillNa(c: Cell, d: real): Cell
  {
    if c.NaN? then Num(d) else c
  }

  /** year - buildYear, masked to NaN when negative or above 200, then NaN filled with 30. */
  function AgeOf(year: Cell, buildYear: Cell): (r: Cell)
    ensures if year.Num? && buildYear.Num? && 0.0 <= year.v - buildYear.v <= MaxAge
            then r == Num(year.v - buildYear.v)
            else r == Num(DefaultAge)
    ensures r.Num? && 0.0 <= r.v <= MaxAge
  {
    var age := Sub(year, buildYear);
    var masked := if age.Num? && (age.v < 0.0 || age.v > MaxAge) then NaN else age;
    FillNa(masked, DefaultAge)
  }

  /** floor / floorCount with non-finite and missing results filled with 0. */
  function FloorRatioOf(floor: Cell, floorCount: Cell): (r: Cell)
    ensures if floor.Num? && floorCount.Num? && floorCount.v != 0.0
            then r == Num(floor.v / floorCount.v)
            else r == Num(0.0)
  {
    FillNa(DivFinite(floor, floorCount), 0.0)
  }

  /** Applies the normaliser to a numeric cell; NaN stays NaN. */
  function NormalizeCell(c: Cell, name: string, ranges: Ranges): Cell
  {
    if c.Num? then Num(NormalizeFeature(c.v, name, ranges)) else c
  }

  /** A column the normalisation loop rescales: numeric and not excluded. */
  predicate Normalizable(name: string, c: Cell)
  {
    IsNumeric(c) && name !in ColumnsToExclude
  }

  // ---------------------------------------------------------------------------
  // Reference definition of the whole preparation, stage by stage, on values.
  // ---------------------------------------------------------------------------

  /** The four direct columns converted to numbers. */
  function Coerced(row: Record, parse: string -> Option<real>): Record
    requires HasRequired(row)
  {
    row["year" := ToNumeric(row["year"], parse)]
       ["buildYear" := ToNumeric(row["buildYear"], parse)]
       ["floor" := ToNumeric(row["floor"], parse)]
       ["floorCount" := ToNumeric(row["floorCount"], parse)]
  }

  /** The derived columns age and floor_ratio added (or overwritten). */
  function Derived(row: Record): Record
    requires HasRequired(row)
  {
    row["age" := AgeOf(row["year"], row["buildYear"])]
       ["floor_ratio" := FloorRatioOf(row["floor"], row["floorCount"])]
  }

  /** Every numeric, non-excluded column rescaled; all others untouched. */
  function Normalized(row: Record, ranges: Ranges): (r: Record)
    ensures r.Keys == row.Keys
    ensures forall c :: c in row && row[c].Num? && c !in ColumnsToExclude ==>
              r[c] == Num(NormalizeFeature(row[c].v, c, ranges))
    ensures forall c :: c in row && (c in ColumnsToExclude || !row[c].Num?) ==> r[c] == row[c]
  {
    map c | c in row :: if Normalizable(c, row[c]) then NormalizeCell(row[c], c, ranges) else row[c]
  }

  /** Every column of `cols` that the row lacks added with value 0. */
  function ZeroFilled(row: Record, cols: seq<string>): Record
  {
    map c | c in row.Keys + (set x | x in cols) :: if c in row then row[c] else Num(0.0)
  }

  /** The row projected onto `cols`, in that order. */
  function Select(row: Record, cols: seq<string>): Prepared
    requires forall c :: c in cols ==> c in row
  {
    seq(|cols|, i requires 0 <= i < |cols| => (cols[i], row[cols[i]]))
  }

  /** The frame just before projection. */
  function Final(inputs: Record, ranges: Ranges, parse: string -> Option<real>): Record
    requires HasRequired(inputs)
  {
    ZeroFilled(Normalized(Derived(Coerced(inputs, parse)), ranges), ModelColumns)
  }

  /** The KeyError raised by the first of year, buildYear, floor, floorCount that is absent. */
  function MissingRequired(row: Record): (e: Option<KeyError>)
    ensures e.None? <==> HasRequired(row)
    ensures e.Some? ==> e.value.column !in row
    ensures e == Some(KeyError("buildYear")) ==> "year" in row
    ensures e == Some(KeyError("floor")) ==> "year" in row && "buildYear" in row
    ensures e == Some(KeyError("floorCount")) ==> "year" in row && "buildYear" in row && "floor" in row
    ensures e.Some? ==> e.value.column in ["year", "buildYear", "floor", "floorCount"]
  {
    if "year" !in row then Some(KeyError("year"))
    else if "buildYear" !in row then Some(KeyError("buildYear"))
    else if "floor" !in row then Some(KeyError("floor"))
    else if "floorCount" !in row then Some(KeyError("floorCount"))
    else None
  }

  /**
   The whole preparation: the KeyError of `MissingRequired`, else the final frame projected onto the
   model columns.
   */
  function Prepare(inputs: Record, ranges: Ranges, parse: string -> Option<real>): (r: Result<Prepared, KeyError>)
    ensures r.Success? <==> HasRequired(inputs)
    ensures r.Failure? ==> Some(r.error) == MissingRequired(inputs)
    ensures r.Success? ==> |r.value| == |ModelColumns|
    ensures r.Success? ==> forall i :: 0 <= i < |r.value| ==> r.value[i].0 == ModelColumns[i]
  {
    if MissingRequired(inputs).Some? then Failure(MissingRequired(inputs).value)
    else
      var final := Final(inputs, ranges, parse);
      assert forall c :: c in ModelColumns ==> c in final;
      Success(Select(final, ModelColumns))
  }

  // ---------------------------------------------------------------------------
  // Column lists computed from the frame.
  // ---------------------------------------------------------------------------

  /** The numeric columns of `cols`, in their order (select_dtypes on numbers). */
  function NumericColumns(cols: seq<string>, row: Record): (r: seq<string>)
    requires forall c :: c in cols ==> c in row
    ensures forall c :: c in r <==> c in cols && IsNumeric(row[c])
    ensures Distinct(cols) ==> Distinct(r)
  {
    if cols == [] then []
    else
      var rest := NumericColumns(cols[1..], row);
      assert forall c :: c in cols[1..] ==> c in cols;
      if IsNumeric(row[cols[0]]) then [cols[0]] + rest else rest
  }

  /** The columns of `cols` not in `exclude`, in their order. */
  function Excluding(cols: seq<string>, exclude: seq<string>): (r: seq<string>)
    ensures forall c :: c in r <==> c in cols && c !in exclude
    ensures Distinct(cols) ==> Distinct(r)
  {
    if cols == [] then []
    else
      var rest := Excluding(cols[1..], exclude);
      assert forall c :: c in cols[1..] ==> c in cols;
      if cols[0] !in exclude then [cols[0]] + rest else rest
  }

  /** `acc` extended, in order, by the names of `cols` it does not yet hold. */
  function Appended(acc: seq<string>, cols: seq<string>): seq<string>
  {
    if cols == [] then acc
    else
      var a := Appended(acc, cols[..|cols| - 1]);
      if cols[|cols| - 1] in a then a else a + [cols[|cols| - 1]]
  }

  /** Appending two names: each is added unless already held. */
  lemma AppendedPair(acc: seq<string>, a: string, b: string)
    ensures var x := if a in acc then acc else acc + [a];
            Appended(acc, [a, b]) == if b in x then x else x + [b]
  {
    assert [a, b][..1] == [a];
    assert [a][..0] == [];
    assert Appended(acc, [a]) == if a in acc then acc else acc + [a];
  }

  /** A zero-filled row holds every column it was filled with. */
  lemma ZeroFilledCovers(filled: Record, row: Record, cols: seq<string>)
    requires filled == ZeroFilled(row, cols)
    ensures forall c :: c in cols ==> c in filled
  {
  }

  /** With the four direct columns present, preparation succeeds with the projected final frame. */
  lemma PrepareWhenRequired(inputs: Record, ranges: Ranges, parse: string -> Option<real>)
    requires HasRequired(inputs)
    ensures forall c :: c in ModelColumns ==> c in Final(inputs, ranges, parse)
    ensures Prepare(inputs, ranges, parse) == Success(Select(Final(inputs, ranges, parse), ModelColumns))
  {
    ZeroFilledCovers(Final(inputs, ranges, parse), Normalized(Derived(Coerced(inputs, parse)), ranges), ModelColumns);
  }

  /** Zero-filling one more column adds it only when it is still absent. */
  lemma ZeroFilledSnoc(row: Record, cols: seq<string>, col: string)
    ensures ZeroFilled(row, cols + [col])
            == var z := ZeroFilled(row, cols); if col in z then z else z[col := Num(0.0)]
  {
    assert (set x | x in cols + [col]) == (set x | x in cols) + {col};
  }

  // ---------------------------------------------------------------------------
  // The one-row frame, updated in place.
  // ---------------------------------------------------------------------------

  class Frame {
    /** Column order. */
    var columns: seq<string>
    /** The single row. */
    var row: Record

    ghost predicate Valid()
      reads this
    {
      Distinct(columns) && row.Keys == (set c | c in columns)
    }

    /** A frame of one row from a dict with keys in the order `order`. */
    constructor (inputs: Record, order: seq<string>)
      requires Distinct(order) && inputs.Keys == (set c | c in order)
      ensures Valid() && row == inputs && columns == order
    {
      columns := order;
      row := inputs;
    }

    /** Column assignment: overwrites an existing column, appends a new one. */
    method Assign(col: string, value: Cell)
      requires Valid()
      modifies this
      ensures Valid()
      ensures row == old(row)[col := value]
      ensures columns == if col in old(row) then old(columns) else old(columns) + [col]
    {
      if col !in row {
        assert col !in columns;
        columns := columns + [col];
      }
      row := row[col := value];
    }

    /** Converts one column to numbers; an absent column raises a KeyError and changes nothing. */
    method Coerce(col: string, parse: string -> Option<real>) returns (err: Option<KeyError>)
      requires Valid()
      modifies this
      ensures Valid() && columns == old(columns)
      ensures err == if col in old(row) then None else Some(KeyError(col))
      ensures row == if col in old(row) then old(row)[col := ToNumeric(old(row)[col], parse)] else old(row)
    {
      if col !in row {
        return Some(KeyError(col));
      }
      Assign(col, ToNumeric(row[col], parse));
      err := None;
    }

    /**
     Converts year, buildYear, floor and floorCount in that order, stopping at
     the first one that is absent.
     */
    method CoerceRequired(parse: string -> Option<real>) returns (err: Option<KeyError>)
      requires Valid()
      modifies this
      ensures Valid() && columns == old(columns)
      ensures err == MissingRequired(old(row))
      ensures err.None? ==> row == Coerced(old(row), parse)
    {
      err := Coerce("year", parse);
      if err.Some? { return; }
      err := Coerce("buildYear", parse);
      if err.Some? { return; }
      err := Coerce("floor", parse);
      if err.Some? { return; }
      err := Coerce("floorCount", parse);
    }

    /** Adds age and floor_ratio, computed from the coerced columns. */
    method AddDerived()
      requires Valid() && HasRequired(row)
      modifies this
      ensures Valid() && row == Derived(old(row))
      ensures columns == Appended(old(columns), ["age", "floor_ratio"])
    {
      AppendedPair(columns, "age", "floor_ratio");
      Assign("age", AgeOf(row["year"], row["buildYear"]));
      Assign("floor_ratio", FloorRatioOf(row["floor"], row["floorCount"]));
    }

    /** The numeric columns outside the exclude list, in frame order. */
    function ColumnsToNormalize(): (cols: seq<string>)
      reads this
      requires Valid()
      ensures Distinct(cols)
      ensures forall c :: c in cols <==> c in row && Normalizable(c, row[c])
    {
      Excluding(NumericColumns(columns, row), ColumnsToExclude)
    }

    /** Rescales each column of `cols` in turn. */
    method NormalizeColumns(cols: seq<string>, ranges: Ranges)
      requires Valid()
      requires Distinct(cols) && forall c :: c in cols ==> c in row
      modifies this
      ensures Valid() && columns == old(columns) && row.Keys == old(row).Keys
      ensures forall c :: c in row ==>
                row[c] == if c in cols then NormalizeCell(old(row)[c], c, ranges) else old(row)[c]
    {
      var i := 0;
      while i < |cols|
        invariant 0 <= i <= |cols|
        invariant Valid() && columns == old(columns) && row.Keys == old(row).Keys
        invariant forall c :: c in row ==>
                    row[c] == if c in cols[..i] then NormalizeCell(old(row)[c], c, ranges) else old(row)[c]
      {
        var col := cols[i];
        assert col !in cols[..i];
        Assign(col, NormalizeCell(row[col], col, ranges));
        assert cols[..i + 1] == cols[..i] + [col];
        i := i + 1;
      }
      assert cols[..i] == cols;
    }

    /** Adds each column of `cols` that the frame lacks, with value 0. */
    method FillMissing(cols: seq<string>)
      requires Valid()
      modifies this
      ensures Valid()
      ensures row == ZeroFilled(old(row), cols)
      ensures columns == Appended(old(columns), cols)
    {
      var i := 0;
      while i < |cols|
        invariant 0 <= i <= |cols|
        invariant Valid()
        invariant row == ZeroFilled(old(row), cols[..i])
        invariant columns == Appended(old(columns), cols[..i])
      {
        var col := cols[i];
        assert cols[..i + 1] == cols[..i] + [col];
        ZeroFilledSnoc(old(row), cols[..i], col);
        if col !in row {
          Assign(col, Num(0.0));
        }
        i := i + 1;
      }
      assert cols[..i] == cols;
    }
  }

  /** Rescaling exactly the normalisable columns, one by one, yields `Normalized`. */
  lemma NormalizedByColumns(before: Record, after: Record, cols: seq<string>, ranges: Ranges)
    requires forall c :: c in cols <==> c in before && Normalizable(c, before[c])
    requires after.Keys == before.Keys
    requires forall c :: c in after ==>
               after[c] == if c in cols then NormalizeCell(before[c], c, ranges) else before[c]
    ensures after == Normalized(before, ranges)
  {
  }

  /**
   Builds the model's input record from one raw input dict whose keys are
   listed, in insertion order, by `order`.
   */
  method PrepareInputData(inputs: Record, order: seq<string>, ranges: Ranges, parse: string -> Option<real>)
    returns (r: Result<Prepared, KeyError>)
    requires Distinct(order) && inputs.Keys == (set c | c in order)
    ensures r == Prepare(inputs, ranges, parse)
  {
    var frame := new Frame(inputs, order);
    var err := frame.CoerceRequired(parse);
    if err.Some? { return Failure(err.value); }
    frame.AddDerived();
    ghost var derived := frame.row;

    var cols := frame.ColumnsToNormalize();
    frame.NormalizeColumns(cols, ranges);
    NormalizedByColumns(derived, frame.row, cols, ranges);

    frame.FillMissing(ModelColumns);
    ZeroFilledCovers(frame.row, Normalized(derived, ranges), ModelColumns);
    assert frame.row == Final(inputs, ranges, parse);
    r := Success(Select(frame.row, ModelColumns));
    PrepareWhenRequired(inputs, ranges, parse);
  }
}
