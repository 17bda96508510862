/**
 What the assembled record holds, column by column, for every raw input
 (prediction.py).
 */
module PredictionProperties {
  import opened Wrappers
  import opened FeatureUtils
  import opened Prediction

  /** The coerced columns prediction.py indexes directly. */
  predicate IsCoercedColumn(c: string)
  {
    c == "year" || c == "buildYear" || c == "floor" || c == "floorCount"
  }

  /** The two columns the assembler derives. */
  predicate IsDerivedColumn(c: string)
  {
    c == "age" || c == "floor_ratio"
  }

  /** No name occurs both at a position in [a, b) and at a later position in [c, d). */
  predicate ApartBlocks(a: int, b: int, c: int, d: int)
    requires 0 <= a <= b <= |ModelColumns| && 0 <= c <= d <= |ModelColumns|
  {
    forall i, j :: a <= i < b && c <= j < d && i < j ==> ModelColumns[i] != ModelColumns[j]
  }

  // The 435 pairwise comparisons of the model columns, in blocks of ten names.
  lemma ApartBlocks00() ensures ApartBlocks(0, 10, 0, 10) {}
  lemma ApartBlocks11() ensures ApartBlocks(10, 20, 10, 20) {}
  lemma ApartBlocks22() ensures ApartBlocks(20, 30, 20, 30) {}
  lemma ApartBlocks01() ensures ApartBlocks(0, 10, 10, 20) {}
  lemma ApartBlocks02() ensures ApartBlocks(0, 10, 20, 30) {}
  lemma ApartBlocks12() ensures ApartBlocks(10, 20, 20, 30) {}

  /** There are 30 model columns and no name repeats. */
  lemma ModelColumnsFacts()
    ensures |ModelColumns| == 30
    ensures Distinct(ModelColumns)
  {
    ApartBlocks00(); ApartBlocks11(); ApartBlocks22();
    ApartBlocks01(); ApartBlocks02(); ApartBlocks12();
  }

  /**
   Preparation fails exactly when one of year, buildYear, floor, floorCount is
   absent, naming the first absent one in that order; otherwise the record has
   the model columns, in order, each once, and nothing else.
   */
  lemma PrepareShape(inputs: Record, ranges: Ranges, parse: string -> Option<real>)
    ensures Prepare(inputs, ranges, parse).Success? <==> HasRequired(inputs)
    ensures Prepare(inputs, ranges, parse).Failure? ==>
              var k := Prepare(inputs, ranges, parse).error.column;
              && IsCoercedColumn(k) && k !in inputs
              && (k != "year" ==> "year" in inputs)
              && (k == "floor" || k == "floorCount" ==> "buildYear" in inputs)
              && (k == "floorCount" ==> "floor" in inputs)
    ensures Prepare(inputs, ranges, parse).Success? ==>
              var out := Prepare(inputs, ranges, parse).value;
              && |out| == |ModelColumns| == 30
              && (forall i :: 0 <= i < |out| ==> out[i].0 == ModelColumns[i])
              && (forall i, j :: 0 <= i < j < |out| ==> out[i].0 != out[j].0)
  {
    ModelColumnsFacts();
    if HasRequired(inputs) {
      PrepareWhenRequired(inputs, ranges, parse);
    }
  }

  /** The assembled record of an input that has the four required columns. */
  function Assembled(inputs: Record, ranges: Ranges, parse: string -> Option<real>): Prepared
    requires HasRequired(inputs)
  {
    Prepare(inputs, ranges, parse).value
  }

  /** Position i of the assembled record holds model column i and its value in the final frame. */
  lemma AssembledAt(inputs: Record, ranges: Ranges, parse: string -> Option<real>, i: int)
    requires HasRequired(inputs)
    requires 0 <= i < |ModelColumns|
    ensures Prepare(inputs, ranges, parse) == Success(Assembled(inputs, ranges, parse))
    ensures |Assembled(inputs, ranges, parse)| == |ModelColumns|
    ensures ModelColumns[i] in Final(inputs, ranges, parse)
    ensures Assembled(inputs, ranges, parse)[i] == (ModelColumns[i], Final(inputs, ranges, parse)[ModelColumns[i]])
  {
    PrepareWhenRequired(inputs, ranges, parse);
  }

  /**
   The final value of a column present before normalisation: rescaled if
   numeric and not excluded, otherwise as it was; zero-fill leaves it alone.
   */
  lemma FinalOfPresent(inputs: Record, ranges: Ranges, parse: string -> Option<real>, c: string)
    requires HasRequired(inputs)
    requires c in Derived(Coerced(inputs, parse))
    ensures c in Final(inputs, ranges, parse)
    ensures var d := Derived(Coerced(inputs, parse))[c];
            Final(inputs, ranges, parse)[c] == if Normalizable(c, d) then NormalizeCell(d, c, ranges) else d
  {
  }

  /** The output age is the normaliser applied to the pre-normalisation age. */
  lemma PreparedAge(inputs: Record, ranges: Ranges, parse: string -> Option<real>, i: int)
    requires HasRequired(inputs)
    requires 0 <= i < |ModelColumns| && ModelColumns[i] == "age"
    ensures |Assembled(inputs, ranges, parse)| == |ModelColumns|
    ensures var age := AgeOf(ToNumeric(inputs["year"], parse), ToNumeric(inputs["buildYear"], parse));
            age.Num? && Assembled(inputs, ranges, parse)[i].1 == Num(NormalizeFeature(age.v, "age", ranges))
  {
    AssembledAt(inputs, ranges, parse, i);
    FinalOfPresent(inputs, ranges, parse, "age");
  }

  /** The output floor_ratio is the guarded quotient of the coerced operands, never rescaled. */
  lemma PreparedFloorRatio(inputs: Record, ranges: Ranges, parse: string -> Option<real>, i: int)
    requires HasRequired(inputs)
    requires 0 <= i < |ModelColumns| && ModelColumns[i] == "floor_ratio"
    ensures |Assembled(inputs, ranges, parse)| == |ModelColumns|
    ensures Assembled(inputs, ranges, parse)[i].1
            == FloorRatioOf(ToNumeric(inputs["floor"], parse), ToNumeric(inputs["floorCount"], parse))
  {
    AssembledAt(inputs, ranges, parse, i);
    FinalOfPresent(inputs, ranges, parse, "floor_ratio");
  }

  /** year, buildYear, floor and floorCount come out as their coerced input values, unscaled. */
  lemma PreparedCoerced(inputs: Record, ranges: Ranges, parse: string -> Option<real>, i: int)
    requires HasRequired(inputs)
    requires 0 <= i < |ModelColumns| && IsCoercedColumn(ModelColumns[i])
    ensures |Assembled(inputs, ranges, parse)| == |ModelColumns|
    ensures Assembled(inputs, ranges, parse)[i].1 == ToNumeric(inputs[ModelColumns[i]], parse)
  {
    AssembledAt(inputs, ranges, parse, i);
    FinalOfPresent(inputs, ranges, parse, ModelColumns[i]);
  }

  /** month, latitude and longitude come out unscaled, or 0 when absent. */
  lemma PreparedRawNumeric(inputs: Record, ranges: Ranges, parse: string -> Option<real>, i: int)
    requires HasRequired(inputs)
    requires 0 <= i < |ModelColumns|
    requires ModelColumns[i] == "month" || ModelColumns[i] == "latitude" || ModelColumns[i] == "longitude"
    ensures |Assembled(inputs, ranges, parse)| == |ModelColumns|
    ensures Assembled(inputs, ranges, parse)[i].1
            == if ModelColumns[i] in inputs then inputs[ModelColumns[i]] else Num(0.0)
  {
    AssembledAt(inputs, ranges, parse, i);
    if ModelColumns[i] in inputs {
      FinalOfPresent(inputs, ranges, parse, ModelColumns[i]);
    }
  }

  /** A category (string) column comes out exactly as it came in. */
  lemma PreparedCategorical(inputs: Record, ranges: Ranges, parse: string -> Option<real>, i: int)
    requires HasRequired(inputs)
    requires 0 <= i < |ModelColumns|
    requires !IsCoercedColumn(ModelColumns[i]) && !IsDerivedColumn(ModelColumns[i])
    requires ModelColumns[i] in inputs && inputs[ModelColumns[i]].Str?
    ensures |Assembled(inputs, ranges, parse)| == |ModelColumns|
    ensures Assembled(inputs, ranges, parse)[i].1 == inputs[ModelColumns[i]]
  {
    AssembledAt(inputs, ranges, parse, i);
    FinalOfPresent(inputs, ranges, parse, ModelColumns[i]);
  }

  /** A numeric input column outside the exclude list comes out normalised; NaN stays NaN. */
  lemma PreparedNormalized(inputs: Record, ranges: Ranges, parse: string -> Option<real>, i: int)
    requires HasRequired(inputs)
    requires 0 <= i < |ModelColumns|
    requires ModelColumns[i] !in ColumnsToExclude && !IsDerivedColumn(ModelColumns[i])
    requires ModelColumns[i] in inputs && IsNumeric(inputs[ModelColumns[i]])
    ensures |Assembled(inputs, ranges, parse)| == |ModelColumns|
    ensures var c := ModelColumns[i];
            Assembled(inputs, ranges, parse)[i].1
            == if inputs[c].Num? then Num(NormalizeFeature(inputs[c].v, c, ranges)) else NaN
  {
    AssembledAt(inputs, ranges, parse, i);
    FinalOfPresent(inputs, ranges, parse, ModelColumns[i]);
  }

  /** A model column absent from the input (other than the derived ones) is 0, not normalised. */
  lemma PreparedZeroFilled(inputs: Record, ranges: Ranges, parse: string -> Option<real>, i: int)
    requires HasRequired(inputs)
    requires 0 <= i < |ModelColumns|
    requires ModelColumns[i] !in inputs && !IsDerivedColumn(ModelColumns[i])
    ensures |Assembled(inputs, ranges, parse)| == |ModelColumns|
    ensures Assembled(inputs, ranges, parse)[i].1 == Num(0.0)
  {
    AssembledAt(inputs, ranges, parse, i);
  }
}
