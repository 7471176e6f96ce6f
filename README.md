# Pharmaceutical price dashboard: the logic behind the page

The dashboard (`app.py`) lets a user browse a product dataset, search it, and
ask a pre-trained regression model for a price. Under the page code sit three
small pieces of logic, and this project models those and proves properties of
them:

- **Strength extractor** (`extract_strength`). It reads the first number in a
  free-text strength such as "650.5 mg" with the search pattern
  `(\d+\.?\d*)`. Module `Strength` scans for the token (`Scan`) and gives its
  exact value (`Numeral.Value`). The ghost predicate `InPattern` states the
  pattern as a language, independent of the scanner, and the scanner is proved
  to return the leftmost match and the longest one there.
- **Explorer search**. This is a case-insensitive keyword filter over brand
  names, primary ingredients or both, and an empty keyword gives no result at
  all. Module `Explorer` models it over the dataset rows of module `Dataset`.
  The text helpers are in module `Text`.
- **Prediction request and cohort comparison**. The form's values become the
  model's nine-field feature record. The predicted price is then compared with
  the mean price of three cohorts: the same primary ingredient, the same
  manufacturer, and all rows. This is module `Prediction`.

Module `Wrappers` holds `Option`. `None` stands for a missing cell (NaN), an
unmatched pattern, an undefined mean or deviation, or a model call that
raised.

Modelling choices:

- The trained model, applied to one feature row and followed by the inverse
  of its log transform, is the parameter `predictPrice: FeatureRow ->
  Option<real>` of `Prediction.Predict`. `None` means the call raised. The
  source then shows an error and no figures, so `Predict` returns `None`.
- Prices and strengths are exact `real`s.
- An empty set of values has mean `None`, as pandas returns NaN. A deviation
  from a zero or undefined mean is `None`, as numpy returns inf or NaN.
- The "Search Type" entry is kept as the string the drop-down returns.
  `Explorer.ScopeOf` follows the source's `if`/`elif`/`else`, so any entry
  other than "Both" and "Brand Names Only" searches ingredients.

## Model

| member | source | states |
|---|---|---|
| `Strength.ExtractStrength` | app.py:192-195 | An absent input gives absent. A present text gives absent exactly when it has no digit. Any value found is non-negative. |
| `Strength.Scan` | app.py:194 | The search finds nothing exactly when the text has no digit. What it finds is a well-formed token: one or more digits, optionally a point and more digits. |
| `Strength.FirstDigitFrom` | app.py:194 | Gives the first digit position at or after `i`, or the text's end. Every position before it is a non-digit. |
| `Strength.DigitRunEnd` | app.py:194 | Gives the end of the maximal digit run from `i`: every position before it is a digit, and the position at it is not. |
| `Strength.MatchEndIsKnown` | app.py:194 | The token ends where the digit run at the first digit ends. If a point follows the run, it ends after the digit run that follows the point. |
| `Strength.MatchedText` | app.py:194-195 | The returned token is exactly the text between the match's start and end. |
| `Strength.PatternStartsWithDigit` | app.py:194 | Every string that `(\d+\.?\d*)` matches starts with a digit. |
| `Strength.NoMatchBeforeFirstDigit` | app.py:194 | No match of the pattern starts before the text's first digit. |
| `Strength.MatchIsInPattern` | app.py:194 | The scanned token is matched by `(\d+\.?\d*)` in full. |
| `Strength.DigitPrefixWithinRun` | app.py:194 | The leading digit part of any candidate match lies within the maximal digit run. |
| `Strength.LongerDoesNotSplit` | app.py:194 | A candidate longer than the scanned token cannot be split into the pattern's parts. |
| `Strength.NoLongerMatch` | app.py:194 | No longer match starts where the token starts, so the greedy match is the longest one. |
| `Strength.ScanIsLeftmostLongest` | app.py:194 | With no digit, no substring matches the pattern. Otherwise the token matches it, no match starts further left, and none is longer at the same start. |
| `Strength.ScanWithPoint` | app.py:194 | When a point follows the first digit run, the token holds both digit runs and the point. |
| `Strength.ScanWithoutPoint` | app.py:194 | When no point follows the first digit run, the token is that run alone. |
| `Strength.ScanOfNumeralText` | app.py:194 | A digit-free prefix, then a numeral, then a rest that cannot extend it, scans to exactly that numeral. |
| `Strength.ScanOfText` | app.py:194-195 | Every well-formed numeral, written out, scans back to itself (round trip). |
| `Strength.TextAroundScan` | app.py:194 | The text is the prefix, then the token, then the rest. The prefix has no digit, and the rest's first character could not extend the token. |
| `Strength.LaterTextIgnored` | app.py:194 | Once a character follows the token, appending any text, later numbers included, leaves the result unchanged. |
| `Strength.DigitsValueBelowPow10` | app.py:195 | n decimal digits denote a number below 10^n. |
| `Strength.Numeral.Value` | app.py:195 | The number `float` reads from the token: its whole part is the integer digits' value, and the rest, shifted left by the number of fraction digits, is the fraction digits' value. It lies in [integer digits, integer digits + 1). |
| `Strength.ExtractStrengthOfNumeralText` | app.py:192-195 | A digit-free prefix, then a numeral, then a rest that cannot extend it, gives exactly the numeral's value. |
| `Strength.ExampleDecimal` | app.py:192-195 | "650.5 mg" gives 650.5. |
| `Strength.ExampleInteger` | app.py:192-195 | "500" gives 500. |
| `Strength.ExampleTrailingPoint` | app.py:192-195 | "5." gives 5. |
| `Strength.ExampleLeadingPoint` | app.py:192-195 | ".5" gives 5, because the token starts at the first digit. |
| `Strength.ExampleCombination` | app.py:192-195 | "250/125 mg" gives 250, and the second number is ignored. |
| `Strength.ExampleNoNumber` | app.py:193-195 | "Paracetamol", the empty text and an absent input all give absent. |
| `Text.Contains` | app.py:475-481 | The substring search holds exactly when the keyword occurs at some position of the cell. |
| `Text.ContainsIgnoringCase` | app.py:475-481 | The case-insensitive test holds exactly when the lower-cased keyword occurs at some position of the lower-cased cell. |
| `Text.LowerIdempotent` | app.py:475-481 | Lower-casing twice is the same as lower-casing once. |
| `Text.IgnoringCaseOfNeedle` | app.py:475-481 | The case-insensitive test gives the same answer whatever the case of the keyword. |
| `Dataset.Choices` | app.py:338 | A value is offered by a column's drop-down exactly when some row has it in that column. |
| `Dataset.Where` | app.py:419 | The cohort holds exactly the dataset rows whose cell equals the value, each as often as it occurs in the dataset. Missing cells never match. |
| `Dataset.WhereIsSubsequence` | app.py:419 | The cohort keeps the dataset's order: rows are only dropped. |
| `Dataset.ChosenValueHasRows` | app.py:379 | A value picked from a drop-down selects at least one row. |
| `Dataset.Prices` | app.py:420 | The price column has one price per row, in row order. |
| `Explorer.ScopeOf` | app.py:467-481 | "Both" and "Brand Names Only" select their own branches. Every other entry selects the ingredient branch. |
| `Explorer.Keeps` | app.py:474-481 | The row mask: the brand name is tested unless only ingredients are searched, and the ingredient is tested unless only brand names are searched. A missing cell never matches. |
| `Explorer.FilterRows` | app.py:474-481 | The result has exactly the dataset rows the selected mask keeps, each as often as it occurs in the dataset, and is no longer than the dataset. |
| `Explorer.Search` | app.py:472-481 | An empty keyword gives no result. Otherwise the result holds exactly the rows that match under the selected scope, each as often as it occurs in the dataset. |
| `Explorer.FilterIsSubsequence` | app.py:474-481 | The filtered rows are a subsequence of the dataset: rows are only dropped, and order is kept. |
| `Explorer.SearchIsSubsequence` | app.py:472-481 | A non-empty keyword always gives a result, and that result is a subsequence of the dataset. |
| `Explorer.BothIsEitherField` | app.py:474-477 | Under "Both", a row is kept exactly when its brand name matches or its ingredient matches. |
| `Explorer.NarrowingBoth` | app.py:474-481 | Filtering the "Both" result by one field gives exactly that field's own result, in the same order. |
| `Explorer.BothContainsEachScope` | app.py:474-481 | The "Both" result contains the brand-name result and the ingredient result as subsequences, and holds only rows from one of them. |
| `Explorer.BrandSearchIgnoresIngredient` | app.py:479 | Changing ingredients leaves the "Brand Names Only" result choosing the same rows, in the same order. |
| `Explorer.IngredientSearchIgnoresBrand` | app.py:481 | Changing brand names leaves the "Ingredients Only" result choosing the same rows, in the same order. |
| `Explorer.KeywordCaseIgnored` | app.py:475-481 | Lower-casing the keyword leaves every scope's result unchanged. |
| `Explorer.ScenarioIngredientSearch` | app.py:481 | Searching "paracetamol" under "Ingredients Only" returns both Paracetamol rows, in order. |
| `Prediction.BuildFeatureRow` | app.py:356-401 | The seven selected fields are copied unchanged. `is_discontinued` is 1 exactly when "Discontinued" was chosen, and 0 otherwise. The strength is the extracted strength of the text, absent exactly when the text has no digit. |
| `Prediction.SameFeaturesIff` | app.py:391-401 | Two submissions give the model the same row exactly when they agree on the seven copied fields, on discontinuation, and on the extracted strength. |
| `Prediction.CombinationStrengthReadsFirstNumber` | app.py:400 | "250/125 mg" and "250" give the model the same row. |
| `Prediction.ValidForm` | app.py:336-388 | The widget constraints: each category is a value the dataset offers, the status is "Active" or "Discontinued", the pack size is at least 1 and the ingredient count is 1 or 2. Meeting them needs a non-empty dataset. |
| `Prediction.ValidFormExample` | app.py:336-388 | A submission of values taken from a one-row dataset, "Active", pack size 10 and one ingredient passes every widget constraint. |
| `Prediction.ValidFormFeatures` | app.py:336-401 | For inputs the widgets allow, the row's five categories (manufacturer, dosage form, pack unit, ingredient, therapeutic class) occur in the dataset, the pack size is at least 1, the ingredient count is 1 or 2, and `is_discontinued` is 0 exactly for "Active". |
| `Prediction.Mean` | app.py:420 | The mean is defined exactly for a non-empty set of values, and then mean × count = sum. |
| `Prediction.SumBounds` | app.py:420 | With every value in [lo, hi], the sum lies in [lo × n, hi × n]. |
| `Prediction.MeanWithinBounds` | app.py:420 | The mean of a non-empty set of values lies within any bounds of those values. |
| `Prediction.PercentDelta` | app.py:424 | The deviation is defined exactly for a defined, non-zero mean. Then mean + mean × deviation / 100 gives back the predicted price. |
| `Prediction.DeltaSign` | app.py:424 | Against a positive mean, the deviation is positive, zero or negative exactly when the prediction is above, at or below the mean. |
| `Prediction.Compare` | app.py:419-424 | The card's mean is defined exactly for a non-empty cohort, and then it is the cohort's price sum over its size. The card's deviation gives back the price. |
| `Prediction.Predict` | app.py:403-444 | There is a result exactly when the model call succeeds, and its price is the model's price. The three cards' averages are the mean prices of the same-ingredient rows, the same-manufacturer rows and all rows. Each card's deviation is the percentage deviation of the price from that card's average. |
| `Prediction.CohortIsSound` | app.py:419-440 | For a non-empty cohort of dataset rows with prices in [lo, hi], lo > 0, the mean lies in the bounds and the deviation is defined and gives back the price. |
| `Prediction.ValidFormHasAllComparisons` | app.py:419-440 | For a valid form and prices in [lo, hi], lo > 0, all three cards (ingredient, manufacturer, market) have a mean within the bounds and a deviation that gives back the price. |
| `Prediction.ScenarioDuplicateRows` | app.py:419-420 | A Paracetamol row at 100 that occurs twice, and one at 200: the ingredient mean is 400/3, so the duplicate is counted twice. |
| `Prediction.ScenarioCohortMeans` | app.py:419-428 | Paracetamol rows at 100 from maker A and 200 from maker B: the ingredient mean is 150, and maker A's mean is 100. |

## Left out

- Page setup, CSS, tabs, widgets, metric cards, HTML and the data table (app.py:14-177, 198-318, 483-531, 533-615). These are presentation. The widgets' bounds survive only as `Prediction.ValidForm`.
- CSV loading and model loading with framework caching (app.py:180-189). The dataset is a `seq<Product>` parameter and the model is the `predictPrice` parameter.
- The model itself and `np.expm1` (app.py:404-405). Both are opaque or floating-point. The log1p/expm1 round trip is therefore not modelled.
- The error message text of the `except` branch (app.py:443-444). Only the fact that no result is produced is modelled.
- The charts and their groupby/value_counts aggregations (app.py:277-309). These are charting.
- Currency and percentage formatting (app.py:410, 421-441, 493), including the in-place rewrite of the display copy's price column. These are display only.
- The sorting of drop-down options (app.py:338-379). Only which values are offered matters to the logic.
- Explorer.FilterRows: the keyword is matched as a literal substring, but pandas `str.contains` treats it as a regular expression. A keyword with regex metacharacters may behave differently, or raise.
- Explorer.FilterRows: case is ignored by ASCII lower-casing. Python's Unicode case folding for other letters is not modelled.
- Strength.ExtractStrength: only ASCII digits count as digits, but Python's `\d` also accepts other Unicode decimal digits.
- Strength.ExtractStrength: the value is exact. The rounding of `float(...)` to binary64 is not modelled.
- Prediction.Mean: every row is assumed to have a price. pandas would skip missing prices.
- Prediction.FormInput: a drop-down with no options (a column with no value, as in an empty dataset) returns `None` (app.py:336-381). The form's fields are plain strings and cannot represent that.
