# Weight-of-evidence and label encoding, in Dafny

This project models two categorical-feature encoders and proves properties of
the model.

- **`WeightofEvidenceEncoder`** is fitted on a table `X` and a binary target
  `y`. For every configured feature it works out:
  - the share of event rows (`y == 1`) and of non-event rows (`y == 0`) that
    carry each category;
  - the weight of evidence `ln(p_non_event / p_event)` of each category, with 0
    for a category seen in only one class;
  - the information-value contribution `(p_non_event - p_event) * woe`. It is
    NaN for a category seen in only one class, unless a fill value is
    configured.

  The transform (spelled `transofrm` in the source) writes
  `prefix + feature + suffix` columns holding each row's WoE, in place. It
  drops the original column when asked to and the new name differs.
  `information_values` sums each feature's contributions and can describe the
  sum with a predictive-power band.
- **The label-encoding part of `Featurizer`**:
  - fitting gives each configured column a dictionary that maps each distinct
    value to its rank of first appearance;
  - transforming replaces each configured column, in place, by its codes, with
    -1 for values not seen during fitting;
  - `fit`/`transform` run label encoding only when it is configured and fitted.

Layout:

- `wrappers.dfy`: `Option`, `Result` and `Outcome` (a raised exception or
  success).
- `frame.dfy`: table cells, columns and the mutable `DataFrame`.
- `map_sum.dfy`: an order-independent sum over a map's values, with its
  algebra.
- `evidence.dfy`: the statistics as pure functions. Covers
  `__calc_perc`, the WoE and IV tables of one feature, the information value
  and `__add_description`.
- `woe_encoder.dfy`: the encoder object. `fit` and the transform are loops
  proved against the fold functions `FitAll` and `ApplyAll`.
- `label_encoding.dfy`: `unique()`, the fitted dictionary and the
  `label_encoder` closure.
- `featurizer.dfy`: the `Featurizer` object. Its loops are proved against
  `FitCodes` and `EncodeAll`.

Modelling choices:

- A table is a map from column names to columns of `Cell`s.
  - `Cell.Missing` stands for pandas' NaN.
  - Counting drops missing values, as `value_counts` does.
  - `unique()` and the label dictionary treat NaN as one value, as pandas
    does.
- The natural logarithm is a parameter `ln` of `Fit`. The lemmas that need it
  assume only `LogSign(ln)`: on positive reals, `ln` is negative below 1 and
  positive above 1.
- A NaN IV contribution is `None`. Pandas' `sum()`, which skips NaN, is
  `InformationValue`: the sum of the defined contributions.
- A Python exception becomes a `Fail`/`Failure` value:
  - `NotFitted` stands for the `assert self.is_fitted`;
  - `KeyError(name)` is a missing column or encoder;
  - `ClassNotFound(cls)` is the `KeyError` raised by `value_counts()[cls]` when
    no row of that class carries a category;
  - `LengthMismatch` is the `DataFrame` constructor's error for columns of
    different lengths.

  Entries written before the exception stay written, as in the source.

Two behaviours of the code worth stating:

- With `drop_original` set and an empty prefix and suffix, the code silently
  overwrites the original column with its WoE and does not raise.
- The transform changes the caller's table in place.

## Model

| member | source | states |
|---|---|---|
| `WoeEncoding.WeightofEvidenceEncoder.constructor` | WeightofEvidenceEncoder/WeightofEvidenceEncoder.py:25-32 | Stores the configuration (defaults: no drop, no fill value, prefix `woe_`, empty suffix). The tables start empty and the encoder starts unfitted. |
| `Evidence.ClassSize` | WeightofEvidenceEncoder/WeightofEvidenceEncoder.py:54 | `n_event[cls]` never exceeds the number of rows. |
| `Evidence.ClassSizeCount` | WeightofEvidenceEncoder/WeightofEvidenceEncoder.py:54 | `n_event[cls]` is exactly the number of occurrences of `cls` in `y`. |
| `Evidence.Labelled` | WeightofEvidenceEncoder/WeightofEvidenceEncoder.py:55-56 | The rows of a class that carry a category are at most all the rows of that class. |
| `Evidence.LabelledCount` | WeightofEvidenceEncoder/WeightofEvidenceEncoder.py:55-56 | That number is exactly the size of the set of row indices whose target is the class and whose category is not missing. |
| `Evidence.Counts` | WeightofEvidenceEncoder/WeightofEvidenceEncoder.py:55-56 | `value_counts()` of a class holds only non-missing categories, each with a count of at least 1. |
| `Evidence.CountsValue` | WeightofEvidenceEncoder/WeightofEvidenceEncoder.py:55-56 | The count of each category in a class is exactly the number of rows pairing that category with that class; an absent category counts 0. |
| `Evidence.CountsKeys` | WeightofEvidenceEncoder/WeightofEvidenceEncoder.py:55-56 | The categories counted for a class are exactly the non-missing values seen in rows of that class. |
| `Evidence.CountsBounds` | WeightofEvidenceEncoder/WeightofEvidenceEncoder.py:55-56 | Every per-class count is at least 1 and at most the number of counted rows of the class. |
| `Evidence.CountsSum` | WeightofEvidenceEncoder/WeightofEvidenceEncoder.py:55-56 | The per-class counts add up to the number of rows of the class with a non-missing category. |
| `Evidence.LabelledAll` | WeightofEvidenceEncoder/WeightofEvidenceEncoder.py:54-56 | When no row of the class is missing its category, every row of the class is counted. |
| `Evidence.HasClassCounts` | WeightofEvidenceEncoder/WeightofEvidenceEncoder.py:55-56 | `value_counts()[cls]` exists exactly when some row of the class carries a category, and then the class size is positive. |
| `Evidence.Proportions` | WeightofEvidenceEncoder/WeightofEvidenceEncoder.py:55-56 | The proportions of a class are keyed by exactly the categories counted for that class. |
| `Evidence.ProportionsValue` | WeightofEvidenceEncoder/WeightofEvidenceEncoder.py:54-56 | Each category's proportion is the number of rows pairing it with the class divided by the number of rows of the class (`n_event[cls]`); an absent category has 0. |
| `Evidence.ProportionsWellFormed` | WeightofEvidenceEncoder/WeightofEvidenceEncoder.py:55-56 | A class's proportions are keyed by exactly the categories seen in that class, and each lies in (0, 1]. |
| `Evidence.CalcPerc` | WeightofEvidenceEncoder/WeightofEvidenceEncoder.py:53-57 | Succeeds exactly when the lengths agree and both classes have a row with a category. Fails as follows: length mismatch first; then no event row with a category; then no such non-event row. Otherwise both class sizes are positive and the result is the pair of `Proportions` tables (event, non-event), keyed by the categories seen in each class, with every value in (0, 1]. |
| `Evidence.ProportionsSum` | WeightofEvidenceEncoder/WeightofEvidenceEncoder.py:54-56 | A class's proportions sum to the share of its rows whose category is not missing. |
| `Evidence.ProportionsSumToOne` | WeightofEvidenceEncoder/WeightofEvidenceEncoder.py:54-56 | Without missing categories in the class, its proportions sum to exactly 1. |
| `Evidence.WoeTable` | WeightofEvidenceEncoder/WeightofEvidenceEncoder.py:72-74 | Keys are the categories seen in either class, and a category seen in only one class gets 0. With a genuine logarithm, the WoE is negative exactly when the category is rarer among non-events and positive exactly when it is more common. |
| `Evidence.IvTable` | WeightofEvidenceEncoder/WeightofEvidenceEncoder.py:75-78 | Same keys as the WoE table. A contribution is NaN exactly when no fill value is set and the category is seen in only one class. Such a category gets the fill value. |
| `Evidence.ContributionSign` | WeightofEvidenceEncoder/WeightofEvidenceEncoder.py:72-75 | With a genuine logarithm, `p_non_event - p_event` and the WoE of a category seen in both classes have the same sign, so their product is never negative. |
| `Evidence.IvContributionNonNegative` | WeightofEvidenceEncoder/WeightofEvidenceEncoder.py:72-75 | With a genuine logarithm, the contribution of a category seen in both classes is defined and never negative. |
| `Evidence.FitFeature` | WeightofEvidenceEncoder/WeightofEvidenceEncoder.py:71-78 | A missing feature raises `KeyError`. Otherwise it succeeds exactly when `__calc_perc` does. Then the tables are the `WoeTable` and `IvTable` of the proportions `__calc_perc` returns, and they share their keys. |
| `Evidence.WoeKeysObserved` | WeightofEvidenceEncoder/WeightofEvidenceEncoder.py:71-74 | A fitted WoE table knows exactly the categories seen in an event or non-event row of the training column. |
| `Evidence.Defined` | WeightofEvidenceEncoder/WeightofEvidenceEncoder.py:151 | Keeps exactly the categories with a non-NaN contribution, each with that contribution's value; these are what pandas' `sum()` adds. |
| `Evidence.InformationValue` | WeightofEvidenceEncoder/WeightofEvidenceEncoder.py:151 | The sum of the non-NaN contributions; when no contribution is negative, it is not negative. |
| `Evidence.InformationValueNonNegative` | WeightofEvidenceEncoder/WeightofEvidenceEncoder.py:75-78 | With a genuine logarithm and no negative fill value, a feature's information value is never negative. |
| `Evidence.SeriesSum` | WeightofEvidenceEncoder/WeightofEvidenceEncoder.py:151 | Summing the contributions one category at a time, skipping NaN, gives the order-independent information value. |
| `Evidence.FirstMatch` | WeightofEvidenceEncoder/WeightofEvidenceEncoder.py:125-128 | Returns the description of the first band that holds the value (no earlier band holds it), or "Too good to be true!" exactly when no band does. |
| `Evidence.BandsInOrder` | WeightofEvidenceEncoder/WeightofEvidenceEncoder.py:118-128 | The search over the five bands, spelled out as one comparison chain. |
| `Evidence.AddDescription` | WeightofEvidenceEncoder/WeightofEvidenceEncoder.py:118-128 | Each description holds exactly on its half-open band: [0, 0.02), [0.02, 0.1), [0.1, 0.3), [0.3, 0.5). "Too good to be true!" holds exactly for values ≥ 0.5 and for negative values. |
| `Evidence.CityCounts` | WeightofEvidenceEncoder/WeightofEvidenceEncoder.py:54-56 | Category A appears in 2 event rows; among non-event rows, A appears once and B twice. The class sizes are 2 and 3. |
| `Evidence.CityProportions` | WeightofEvidenceEncoder/WeightofEvidenceEncoder.py:53-57 | On that example `__calc_perc` gives {A: 1} for events and {A: 1/3, B: 2/3} for non-events. |
| `Evidence.CityWoe` | WeightofEvidenceEncoder/WeightofEvidenceEncoder.py:72-74 | The example's WoE table is {A: ln(1/3), B: 0}. |
| `Evidence.CityExample` | WeightofEvidenceEncoder/WeightofEvidenceEncoder.py:53-78 | End to end on the example: A's WoE is negative. B's contribution is NaN without a fill value and the fill value with one. |
| `WoeEncoding.FitAll` | WeightofEvidenceEncoder/WeightofEvidenceEncoder.py:70-78 | A fit never removes a table entry, and a fit that raises raises the error of one of the configured features' fits. |
| `WoeEncoding.FitAllFrame` | WeightofEvidenceEncoder/WeightofEvidenceEncoder.py:70-78 | A fit never removes a table entry and leaves the entries of non-configured features as they were. |
| `WoeEncoding.FitAllSuccess` | WeightofEvidenceEncoder/WeightofEvidenceEncoder.py:70-79 | A fit succeeds exactly when every feature fits. Then each feature's entries are its freshly fitted tables, whatever they held before. |
| `WoeEncoding.DegenerateTarget` | WeightofEvidenceEncoder/WeightofEvidenceEncoder.py:55 | With no event row, fitting raises on the first feature before writing any table. |
| `WoeEncoding.DegenerateTargetNoNonEvent` | WeightofEvidenceEncoder/WeightofEvidenceEncoder.py:56 | With event rows but no non-event row, fitting raises on the first feature before writing any table. |
| `WoeEncoding.WeightofEvidenceEncoder.Fit` | WeightofEvidenceEncoder/WeightofEvidenceEncoder.py:59-79 | The tables after the loop are those of `FitAll`, including partial writes before an exception. The encoder becomes fitted only when every feature fits, and keeps the fitted invariant. |
| `WoeEncoding.EncodeColumn` | WeightofEvidenceEncoder/WeightofEvidenceEncoder.py:97-99 | Same length as the input. A row gets NaN exactly when its category is unknown to the table, and otherwise that category's WoE. |
| `WoeEncoding.ApplyFeature` | WeightofEvidenceEncoder/WeightofEvidenceEncoder.py:96-101 | A missing feature raises `KeyError`. Otherwise the new column holds the encoding, and the original survives exactly when not (drop and non-empty prefix + suffix). A surviving original under a non-empty prefix + suffix keeps its values. No other column changes. |
| `WoeEncoding.ApplyAll` | WeightofEvidenceEncoder/WeightofEvidenceEncoder.py:95-101 | A transform that raises raises `KeyError` for one of the configured features. |
| `WoeEncoding.ApplyAllUntouched` | WeightofEvidenceEncoder/WeightofEvidenceEncoder.py:95-102 | A transform leaves every column that is neither a feature nor an encoding name exactly as it was. |
| `WoeEncoding.ApplyAllEncodes` | WeightofEvidenceEncoder/WeightofEvidenceEncoder.py:95-102 | Applies when all features are present, distinct, and do not collide with encoding names. The transform then succeeds, and each encoding column holds the WoE of the feature's original values. Each original survives exactly when it is not dropped, and under a non-empty prefix + suffix it keeps its values. |
| `WoeEncoding.WeightofEvidenceEncoder.Transform` | WeightofEvidenceEncoder/WeightofEvidenceEncoder.py:81-102 | An unfitted encoder raises and leaves `X` alone. Otherwise `X`'s new columns are those of `ApplyAll`, including partial writes before a `KeyError`. |
| `WoeEncoding.WeightofEvidenceEncoder.InformationValues` | WeightofEvidenceEncoder/WeightofEvidenceEncoder.py:130-157 | An unfitted encoder raises. Otherwise there is one row per feature, in order, with its information value and, when asked, its band description. |
| `FeatureEngineering.Featurizer.constructor` | feature_engineering.py:22-38 | Stores the label-encoder columns (default none). There are no encoders yet and the dictionary is empty. |
| `LabelEncoding.Unique` | feature_engineering.py:76 | Has no duplicates and the same values as the column. It starts with the first row's value and is no longer than the column. |
| `LabelEncoding.UniqueFirstAppearance` | feature_engineering.py:76 | `unique()` lists values in the order of their first appearance. |
| `LabelEncoding.UniqueCount` | feature_engineering.py:76 | `unique()` has one entry per distinct value. |
| `LabelEncoding.RanksSpec` | feature_engineering.py:75-77 | Entering the first n distinct values one at a time maps each to its position and nothing else. |
| `LabelEncoding.Codes` | feature_engineering.py:74-77 | The fitted dictionary's keys are exactly the column's values, and the i-th distinct value gets code i. |
| `LabelEncoding.CodesProperties` | feature_engineering.py:74-77 | Codes are 0 .. k-1 for k distinct values. The first row gets 0. Distinct values get distinct codes, and one code is below another exactly when its value appears first. |
| `LabelEncoding.Encode` | feature_engineering.py:78-82 | The closure keeps the column's length. |
| `LabelEncoding.EncodeFitted` | feature_engineering.py:78-82 | Encoding with a fitted dictionary gives codes in -1 .. k-1. A row gets -1 exactly when its value was unseen at fit time, and otherwise its code decodes back to its value. |
| `FeatureEngineering.Featurizer.FitLabelEncoder` | feature_engineering.py:68-83 | Rebuilds the dictionary of the column entry by entry, giving the fitted codes. Other columns' dictionaries and the encoder set are unchanged. |
| `FeatureEngineering.FitCodes` | feature_engineering.py:91-95 | Fitting never forgets a fitted column; when it raises, it is `KeyError` for a configured column missing from the table. |
| `FeatureEngineering.FitCodesResult` | feature_engineering.py:85-95 | Fitting succeeds exactly when every configured column exists, and then each gets an encoder and its fresh dictionary. Other dictionaries are kept, and an encoder exists only with a dictionary. |
| `FeatureEngineering.Featurizer.FitLabelEncoders` | feature_engineering.py:85-95 | Starts from no encoders. The resulting dictionaries, encoders and outcome are those of `FitCodes`, including the encoders fitted before a `KeyError`. |
| `FeatureEngineering.Featurizer.TransformLabelEncoder` | feature_engineering.py:97-105 | A column without an encoder raises `KeyError`. Otherwise the result is the column encoded with that column's fitted dictionary. |
| `FeatureEngineering.EncodeAll` | feature_engineering.py:116-118 | Label encoding keeps the set of column names; when it raises, it is `KeyError` for a configured column that is missing or has no encoder. |
| `FeatureEngineering.EncodeAllScope` | feature_engineering.py:108-118 | Label encoding adds or removes no column and changes no column outside the configured ones. |
| `FeatureEngineering.EncodeAllEncodes` | feature_engineering.py:108-118 | Applies when the configured columns are distinct, present and fitted. The transform then succeeds, and each such column holds the codes of its original values. |
| `FeatureEngineering.Featurizer.TransformLabelEncoders` | feature_engineering.py:108-118 | `X`'s columns and the outcome after the loop are those of `EncodeAll`, including columns replaced before a `KeyError`. |
| `FeatureEngineering.Featurizer.Fit` | feature_engineering.py:139-156 | Never changes `X`, since it works on a copy. Without label-encoder columns nothing changes. With them, the state is that of `FitCodes` from no encoders. |
| `FeatureEngineering.Featurizer.Transform` | feature_engineering.py:159-179 | Without fitted label encoders `X` is left alone. Otherwise `X` becomes `EncodeAll` of its old columns. |
| `FeatureEngineering.FitTransformUnconfigured` | feature_engineering.py:139-179 | A featurizer built without label-encoder columns fits and transforms without touching the table. |

## Left out

- One-hot encoding and `StandardScaler` (`__fit/__transform_one_hot_encoders`, `__fit/__transform_scalers`) are left out. They call into scikit-learn, which is not part of this model. `Featurizer.fit`/`transform` are modelled with those steps switched off.
- The `one_hot_columns` and `drop_original` settings of `Featurizer` serve only the one-hot step, which is left out, so they are not modelled. The unused `nn_columns` and `nn_encoder_hyperparameters` are not modelled either.
- The `print` progress messages of `Featurizer.fit`/`transform` are left out.
- `bin_continuous/bin_continuous.py` and `setup.py` are not part of this model.
- Floating point is left out. Proportions, WoE and IV are exact reals, so rounding, `inf` and `-inf` are not modelled.
- `np.log` is a parameter of `Fit`. The lemmas assume only its sign behaviour (`LogSign`), not its values.
- Column order, dtypes and index alignment are not modelled.
  - A table is a map from names to columns, so a new column's position is not tracked.
  - Label codes are integers. Pandas produces a float column only when some value was unseen at fit time, because the NaN from `Series.map` forces floats before `fillna(-1)`. When every value is known, the column stays integer.
  - Cells of different kinds (text, integer, real) are never equal, whereas pandas treats `1` and `1.0` as the same key.
- `WoeEncoding.WeightofEvidenceEncoder.Transform`: does not model the `na_action=self.fillna` argument. An unknown category and a missing cell both give NaN, which is what `na_action=None` produces. A non-`None` fill value, which some pandas versions reject there, is treated the same way.
- `Evidence.CalcPerc`: models `y` as integers and treats a class as present only when one of its rows carries a category. Other target values are ignored, as `value_counts()[0]`/`[1]` do. The `KeyError` for an absent class is `ClassNotFound`.
- `FeatureEngineering.Featurizer.Transform`: works on the caller's table. In the source, running one-hot encoding first makes `X` a merged copy, and only that copy is label-encoded.
- The `information_values` result is a sequence of rows rather than a `DataFrame` indexed by feature. Repeated feature names in it are not merged.
