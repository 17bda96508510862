# Apartment price predictor: feature preparation, modelled in Dafny

The application collects apartment attributes in a form, turns them into the
feature record a pre-trained tabular regression model expects, and shows the
model's price. The only logic of its own is the feature-preparation pipeline,
and that is what this project models and proves things about:

- **Min-max normaliser** (`feature_utils.py`, module `FeatureUtils`). This is a
  pure function of a value, a feature name and a range table. A feature with a
  proper range `(min, max)`, where `max > min`, is scaled to
  `(value - min) / (max - min)`. An unknown feature, or one whose range is
  degenerate, is passed through unchanged. The result is not clamped.
- **Feature assembler** (`prediction.py`, modules `Prediction` and
  `PredictionProperties`). It works on a one-row frame that it updates in
  place, and the `Frame` class models that frame: its column order and its row.
  The steps are:
  1. Coerce `year`, `buildYear`, `floor` and `floorCount` to numbers.
  2. Derive `age` and `floor_ratio`.
  3. Rescale every numeric column outside the exclude list.
  4. Zero-fill the model columns the frame lacks.
  5. Project the frame onto the 30 model columns.

  `PrepareInputData` runs these steps on a `Frame`. Each step is proved
  against a reference definition on values (`Coerced`, `Derived`,
  `Normalized`, `ZeroFilled`, `Select`, put together as `Prepare`). The lemmas
  of `PredictionProperties` then pin down every output column in terms of the
  raw input.

Representation choices:

- Numbers are `real`. A cell is `Num(real)`, `NaN` or `Str(string)`.
- A row is a `map<string, Cell>`. The raw input dict is that map plus its key
  order.
- The range table is a parameter of type `map<string, (real, real)>`. The
  global table lives in `config.py`, which is not part of this model.
  `app.py:20` passes the table as an argument, so the model follows that
  caller.
- Parsing a string as a number (the library's `to_numeric`) is a parameter
  `parse: string -> Option<real>`. An unparseable string becomes `NaN`.
- Dividing by zero yields ±inf or NaN, and line 29 of `prediction.py` turns
  ±inf into NaN straight away. The model's `DivFinite` therefore yields `NaN`
  for a zero denominator, which `FillNa` then sets to 0.
- An absent `year`, `buildYear`, `floor` or `floorCount` makes `prediction.py`
  raise `KeyError`. The model returns `Failure(KeyError(name))` for the first
  absent one, in the order `prediction.py` indexes them (lines 20-23).

Notes on the code:

- `MODEL_COLUMNS` has 30 entries (`prediction.py:6-14`).
- `floor_ratio` is a quotient for every non-zero `floorCount`, negative ones
  included (`prediction.py:29`).
- An absent `year`, `buildYear`, `floor` or `floorCount` raises `KeyError`
  (`prediction.py:20-23`).
- `app.py:20` passes two arguments to `prepare_input_data`, which takes one
  parameter (`prediction.py:17`). The model takes the range table as a
  parameter, as that caller does.

## Model

| member | source | states |
|---|---|---|
| FeatureUtils.NormalizeFeature | feature_utils.py:4-19 | total (no precondition, never divides by zero); an unknown feature or a range with max <= min returns the value; with max > min the result r satisfies min + r*(max - min) == value |
| FeatureUtils.NormalizeIsMinMax | feature_utils.py:16-18 | with max > min the result is exactly (value - min)/(max - min) |
| FeatureUtils.NormalizeEndpoints | feature_utils.py:18 | with max > min, min maps to 0 and max maps to 1 |
| FeatureUtils.NormalizeStrictlyIncreasing | feature_utils.py:18 | with max > min, v1 < v2 implies normalize(v1) < normalize(v2) |
| FeatureUtils.NormalizeNotClamped | feature_utils.py:17-19 | no clamping: below min maps below 0, above max maps above 1, and the result is in [0, 1] iff the value is in [min, max] |
| FeatureUtils.DenormalizeNormalize | feature_utils.py:15-19 | round trip: min + normalize(v)*(max - min) == v, and the identity where the feature passes through |
| FeatureUtils.NormalizeDenormalize | feature_utils.py:15-19 | the reverse round trip: normalising a denormalised value gives it back |
| Prediction.ToNumeric | prediction.py:20-23 | coercion always yields a number or NaN; numbers and NaN are unchanged; a string becomes a number exactly when it parses, and then that number |
| Prediction.MissingRequired | prediction.py:20-23 | no error iff year, buildYear, floor and floorCount are all present; otherwise the KeyError names one of the four that is absent, and every one before it in that order is present |
| Prediction.NumericColumns | prediction.py:35 | the numeric columns: a name is selected iff it is a column whose cell is a number or NaN; distinct columns give a distinct selection |
| Prediction.Excluding | prediction.py:36 | a name is kept iff it is a column not in the exclude list; distinctness is preserved |
| Prediction.Frame.ColumnsToNormalize | prediction.py:31-36 | the columns to rescale are distinct and are exactly the frame's numeric columns outside the exclude list (which contains price) |
| Prediction.Frame.constructor | prediction.py:18 | the frame holds the input dict's row and its key order |
| Prediction.Frame.Assign | prediction.py:25-29 | column assignment overwrites an existing column in place or appends a new one at the end; the frame stays consistent |
| Prediction.Frame.Coerce | prediction.py:20-23 | an absent column yields KeyError and changes nothing; otherwise only that column changes, to its coerced value |
| Prediction.Frame.CoerceRequired | prediction.py:20-23 | coerces the four columns in order, stopping with the KeyError of the first absent one; on success the row is the coerced row |
| Prediction.AgeOf | prediction.py:25-27 | age is year - buildYear when both are numbers and 0 <= year - buildYear <= 200, else 30; so it always lies in [0, 200] |
| Prediction.FloorRatioOf | prediction.py:29 | floor_ratio is floor/floorCount when both are numbers and floorCount != 0 (either sign), else 0 |
| Prediction.Normalized | prediction.py:31-39 | same columns; a numeric column outside the exclude list is rescaled; excluded columns, NaN and strings are unchanged |
| Prediction.Prepare | prediction.py:17-45 | succeeds iff the four required columns are present; a failure is the KeyError of the first absent one; a success has one entry per model column, in order |
| Prediction.Frame.AddDerived | prediction.py:25-29 | adds or overwrites age and floor_ratio as the derived row states; each is appended to the column order unless already there, age first |
| Prediction.Frame.NormalizeColumns | prediction.py:38-39 | each listed column is rescaled exactly once, every other column and the column order are unchanged |
| Prediction.Frame.FillMissing | prediction.py:41-43 | the absent listed columns are added with value 0 and appended in list order; present columns keep their values |
| Prediction.ZeroFilledSnoc | prediction.py:41-43 | zero-filling one more column changes the row only when that column is still absent |
| Prediction.ZeroFilledCovers | prediction.py:41-43 | after zero-filling, every listed column is present |
| Prediction.NormalizedByColumns | prediction.py:35-39 | rescaling exactly the numeric non-excluded columns one by one gives the reference normalised row |
| Prediction.PrepareWhenRequired | prediction.py:41-45 | with the four required columns present, preparation succeeds with the final frame projected onto the model columns |
| Prediction.PrepareInputData | prediction.py:17-45 | the in-place pipeline on a frame returns exactly the reference preparation, the KeyError cases included |
| PredictionProperties.ModelColumnsFacts | prediction.py:6-14 | there are 30 model columns and no name repeats |
| PredictionProperties.PrepareShape | prediction.py:17-45 | preparation fails iff a required column is absent, naming the first absent one in the order year, buildYear, floor, floorCount; on success the record has exactly the 30 model columns, in order, each once, so other input keys are dropped |
| PredictionProperties.AssembledAt | prediction.py:45 | with the required columns present, preparation succeeds with 30 entries, and position i holds model column i and its value in the final frame |
| PredictionProperties.FinalOfPresent | prediction.py:31-43 | a column present before normalisation ends rescaled if numeric and not excluded, unchanged otherwise; zero-fill never overwrites it |
| PredictionProperties.PreparedAge | prediction.py:25-39 | the output age is normalize(pre-age, "age"), since age is numeric and not excluded |
| PredictionProperties.PreparedFloorRatio | prediction.py:29-34 | the output floor_ratio is the guarded quotient of the coerced floor and floorCount, never rescaled |
| PredictionProperties.PreparedCoerced | prediction.py:20-36 | year, buildYear, floor and floorCount come out as their coerced input values, unscaled |
| PredictionProperties.PreparedRawNumeric | prediction.py:31-43 | month, latitude and longitude come out as their input values, unscaled, or 0 when absent |
| PredictionProperties.PreparedCategorical | prediction.py:31-36 | a string-valued column (city, type, the yes/no flags, ...) comes out unchanged |
| PredictionProperties.PreparedNormalized | prediction.py:35-39 | a numeric input column outside the exclude list comes out normalised; NaN stays NaN |
| PredictionProperties.PreparedZeroFilled | prediction.py:38-43 | a model column absent from the input is 0 in the output and is not normalised |

## Left out

- `make_prediction` (prediction.py:48-60): a thin wrapper over the model's opaque `predict` call.
- model_loader.py: blob-store download, temporary files, caching and model loading are all I/O and foreign calls.
- input_utils.py and app.py: form widgets, page layout and display formatting.
- `config.py` is not part of this model. Its range table becomes a parameter.
- Floating point: numbers are exact reals. Rounding is not modelled, and neither is overflow to ±inf (for example a huge floor over a tiny floorCount), after which prediction.py would also store 0.
- The library's dtypes: there is no boolean, `None` or integer-versus-float distinction. The dtype test sees only number, NaN and string.
- Prediction.ToNumeric: the library's rules for reading a string as a number are not modelled. `parse` is a parameter.
- The frame has one row and no index. Multi-row frames are not modelled.
- Prediction.PrepareInputData: prediction.py raises `KeyError`. The model returns it as a `Failure` value.
