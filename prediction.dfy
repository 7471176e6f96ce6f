/**
 * The price prediction: the form's values become the model's one-row
 * feature record, the model's price is compared with the mean price of
 * three cohorts of the dataset.
 */
module Prediction {
  import opened Wrappers
  import opened Strength
  import opened Dataset

  /** What the prediction form hands over when it is submitted. */
  datatype FormInput = FormInput(
    manufacturer: string,
    dosageForm: string,
    packUnit: string,
    therapeuticClass: string,
    productionStatus: string,   // the radio choice, "Active" or "Discontinued"
    packSize: real,
    numActiveIngredients: int,
    primaryIngredient: string,
    primaryStrength: string)    // free text, "500" by default

  /** The record the model was trained on, field for field. */
  datatype FeatureRow = FeatureRow(
    manufacturer: string,
    dosageForm: string,
    packUnit: string,
    primaryIngredient: string,
    therapeuticClass: string,
    packSize: real,
    numActiveIngredients: int,
    isDiscontinued: int,
    primaryStrengthMg: Option<real>)

  /** What the form's widgets let through: drop-down values from the dataset and the stated bounds. */
  predicate ValidForm(form: FormInput, rows: seq<Product>): (b: bool)
    ensures b ==> |rows| > 0
  {
    && form.manufacturer in Choices(rows, Manufacturer)
    && form.dosageForm in Choices(rows, DosageForm)
    && form.packUnit in Choices(rows, PackUnit)
    && form.therapeuticClass in Choices(rows, TherapeuticClass)
    && form.primaryIngredient in Choices(rows, PrimaryIngredient)
    && (form.productionStatus == "Active" || form.productionStatus == "Discontinued")
    && form.packSize >= 1.0
    && 1 <= form.numActiveIngredients <= 2
  }

  /** The widgets can be satisfied: the defaults picked from a one-row dataset form a valid submission. */
  lemma ValidFormExample()
    ensures var r := ExampleRow("A", 100.0);
      ValidForm(FormInput("A", "Tablet", "strip", "pain analgesics", "Active", 10.0, 1, "Paracetamol", "500"), [r])
  {
    var r := ExampleRow("A", 100.0);
    assert Cell([r][0], Manufacturer) == Some("A");
    assert Cell([r][0], DosageForm) == Some("Tablet");
    assert Cell([r][0], PackUnit) == Some("strip");
    assert Cell([r][0], TherapeuticClass) == Some("pain analgesics");
    assert Cell([r][0], PrimaryIngredient) == Some("Paracetamol");
  }

  /** The one-row input for the model. */
  function BuildFeatureRow(form: FormInput): (row: FeatureRow)
    ensures && row.manufacturer == form.manufacturer
            && row.dosageForm == form.dosageForm
            && row.packUnit == form.packUnit
            && row.primaryIngredient == form.primaryIngredient
            && row.therapeuticClass == form.therapeuticClass
            && row.packSize == form.packSize
            && row.numActiveIngredients == form.numActiveIngredients
    ensures row.isDiscontinued == 0 || row.isDiscontinued == 1
    ensures row.isDiscontinued == 1 <==> form.productionStatus == "Discontinued"
    ensures row.primaryStrengthMg.None? <==> !HasDigit(form.primaryStrength)
    ensures row.primaryStrengthMg.Some? ==> row.primaryStrengthMg.value >= 0.0
    ensures row.primaryStrengthMg == ExtractStrength(Some(form.primaryStrength))
  {
    FeatureRow(
      form.manufacturer,
      form.dosageForm,
      form.packUnit,
      form.primaryIngredient,
      form.therapeuticClass,
      form.packSize,
      form.numActiveIngredients,
      if form.productionStatus == "Discontinued" then 1 else 0,
      ExtractStrength(Some(form.primaryStrength)))
  }

  /** The two forms select the same values in every field that is copied unchanged. */
  predicate SameSelections(f: FormInput, g: FormInput)
  {
    && f.manufacturer == g.manufacturer
    && f.dosageForm == g.dosageForm
    && f.packUnit == g.packUnit
    && f.primaryIngredient == g.primaryIngredient
    && f.therapeuticClass == g.therapeuticClass
    && f.packSize == g.packSize
    && f.numActiveIngredients == g.numActiveIngredients
  }

  /**
   * Two submissions give the model the same input exactly when they agree
   * on the copied fields, on whether the product is discontinued, and on
   * the strength extracted from the free text.
   */
  lemma SameFeaturesIff(f: FormInput, g: FormInput)
    ensures BuildFeatureRow(f) == BuildFeatureRow(g) <==>
      && SameSelections(f, g)
      && (f.productionStatus == "Discontinued" <==> g.productionStatus == "Discontinued")
      && ExtractStrength(Some(f.primaryStrength)) == ExtractStrength(Some(g.primaryStrength))
  {
  }

  /** Only the first number of the strength text reaches the model. */
  lemma CombinationStrengthReadsFirstNumber(f: FormInput)
    ensures BuildFeatureRow(f.(primaryStrength := "250/125 mg")) == BuildFeatureRow(f.(primaryStrength := "250"))
  {
    ExampleCombination();
    var n := Numeral("250", None);
    assert "250"[..2] == "25" && "25"[..1] == "2";
    assert DigitsValue("2") == 2 && DigitsValue("25") == 25 && DigitsValue("250") == 250;
    ScanOfText(n);
    assert n.Text() == "250";
  }

  /** A valid form gives a feature row whose categories occur in the dataset and whose numbers are in range. */
  lemma ValidFormFeatures(form: FormInput, rows: seq<Product>)
    requires ValidForm(form, rows)
    ensures var row := BuildFeatureRow(form);
      && row.manufacturer in Choices(rows, Manufacturer)
      && row.dosageForm in Choices(rows, DosageForm)
      && row.packUnit in Choices(rows, PackUnit)
      && row.primaryIngredient in Choices(rows, PrimaryIngredient)
      && row.therapeuticClass in Choices(rows, TherapeuticClass)
      && row.packSize >= 1.0
      && 1 <= row.numActiveIngredients <= 2
      && (row.isDiscontinued == 0 <==> form.productionStatus == "Active")
  {
  }

  // ---------------------------------------------------------------------
  // Means and percentage deviations

  function Sum(xs: seq<real>): real
  {
    if xs == [] then 0.0 else xs[0] + Sum(xs[1..])
  }

  /** `Series.mean()`: undefined (NaN) for no values. */
  function Mean(xs: seq<real>): (m: Option<real>)
    ensures m.Some? <==> |xs| > 0
    ensures m.Some? ==> m.value * |xs| as real == Sum(xs)
  {
    if xs == [] then None else Some(Sum(xs) / |xs| as real)
  }

  lemma {:induction false} SumBounds(xs: seq<real>, lo: real, hi: real)
    requires forall k :: 0 <= k < |xs| ==> lo <= xs[k] <= hi
    ensures lo * |xs| as real <= Sum(xs) <= hi * |xs| as real
  {
    if xs != [] {
      SumBounds(xs[1..], lo, hi);
    }
  }

  lemma ScaleCancels(a: real, b: real, n: real)
    requires n > 0.0 && a * n <= b * n
    ensures a <= b
  {
    assert (b - a) * n >= 0.0;
  }

  /** The mean lies between any lower and upper bound of the values. */
  lemma MeanWithinBounds(xs: seq<real>, lo: real, hi: real)
    requires |xs| > 0
    requires forall k :: 0 <= k < |xs| ==> lo <= xs[k] <= hi
    ensures lo <= Mean(xs).value <= hi
  {
    SumBounds(xs, lo, hi);
    var m, n := Mean(xs).value, |xs| as real;
    ScaleCancels(lo, m, n);
    ScaleCancels(m, hi, n);
  }

  /** The percentage by which the prediction differs from an average; undefined for a missing or zero average. */
  function PercentDelta(predicted: real, average: Option<real>): (d: Option<real>)
    ensures d.Some? <==> average.Some? && average.value != 0.0
    ensures d.Some? ==> average.value + average.value * d.value / 100.0 == predicted
  {
    if average.None? || average.value == 0.0 then None
    else
      var a := average.value;
      var q := (predicted - a) / a;
      assert q * a == predicted - a;
      Some(q * 100.0)
  }

  /** Above, at or below a positive average, the deviation is positive, zero or negative. */
  lemma DeltaSign(predicted: real, average: real)
    requires average > 0.0
    ensures var d := PercentDelta(predicted, Some(average)).value;
      && (d > 0.0 <==> predicted > average)
      && (d == 0.0 <==> predicted == average)
      && (d < 0.0 <==> predicted < average)
  {
    var d := PercentDelta(predicted, Some(average)).value;
    assert average * d / 100.0 == predicted - average;
    assert average * (d / 100.0) == predicted - average;
    if d > 0.0 { assert average * (d / 100.0) > 0.0; }
    if d < 0.0 { assert average * (d / 100.0) < 0.0; }
  }

  /** One comparison card: a cohort's mean price and the prediction's deviation from it. */
  datatype Comparison = Comparison(average: Option<real>, delta: Option<real>)

  function Compare(predicted: real, cohort: seq<Product>): (c: Comparison)
    ensures c.average.Some? <==> |cohort| > 0
    ensures c.average.Some? ==> c.average.value * |cohort| as real == Sum(Prices(cohort))
    ensures c.delta.Some? <==> c.average.Some? && c.average.value != 0.0
    ensures c.delta.Some? ==> c.average.value + c.average.value * c.delta.value / 100.0 == predicted
  {
    var m := Mean(Prices(cohort));
    Comparison(m, PercentDelta(predicted, m))
  }

  datatype PredictionResult = PredictionResult(
    price: real,
    similarProducts: Comparison,   // same primary ingredient
    manufacturerAverage: Comparison,
    marketAverage: Comparison)     // all rows

  /**
   * The submission. `predictPrice` stands for the trained model followed by
   * the inverse of its log transform; None stands for the model raising, in
   * which case no part of a result is produced.
   */
  function Predict(form: FormInput, rows: seq<Product>, predictPrice: FeatureRow -> Option<real>): (res: Option<PredictionResult>)
    ensures res.None? <==> predictPrice(BuildFeatureRow(form)).None?
    ensures res.Some? ==> res.value.price == predictPrice(BuildFeatureRow(form)).value
    ensures res.Some? ==>
      && res.value.similarProducts.average == Mean(Prices(Where(rows, PrimaryIngredient, form.primaryIngredient)))
      && res.value.manufacturerAverage.average == Mean(Prices(Where(rows, Manufacturer, form.manufacturer)))
      && res.value.marketAverage.average == Mean(Prices(rows))
    ensures res.Some? ==>
      && res.value.similarProducts.delta == PercentDelta(res.value.price, res.value.similarProducts.average)
      && res.value.manufacturerAverage.delta == PercentDelta(res.value.price, res.value.manufacturerAverage.average)
      && res.value.marketAverage.delta == PercentDelta(res.value.price, res.value.marketAverage.average)
  {
    match predictPrice(BuildFeatureRow(form))
    case None => None
    case Some(price) =>
      Some(PredictionResult(
        price,
        Compare(price, Where(rows, PrimaryIngredient, form.primaryIngredient)),
        Compare(price, Where(rows, Manufacturer, form.manufacturer)),
        Compare(price, rows)))
  }

  /** Every row of the cohort has a price above the cohort's minimum and below its maximum. */
  predicate PricesWithin(rows: seq<Product>, lo: real, hi: real)
  {
    forall k :: 0 <= k < |rows| ==> lo <= rows[k].priceInr <= hi
  }

  /** A card whose mean is defined, within the price bounds, and whose deviation recovers the price. */
  predicate Sound(c: Comparison, price: real, lo: real, hi: real)
  {
    && c.average.Some? && lo <= c.average.value <= hi
    && c.delta.Some?
    && c.average.value + c.average.value * c.delta.value / 100.0 == price
  }

  /** The rows of a cohort come from the dataset, so the dataset's price bounds hold for them. */
  lemma CohortIsSound(price: real, rows: seq<Product>, cohort: seq<Product>, lo: real, hi: real)
    requires |cohort| > 0 && lo > 0.0 && PricesWithin(rows, lo, hi)
    requires forall r :: r in cohort ==> r in rows
    ensures Sound(Compare(price, cohort), price, lo, hi)
  {
    forall k | 0 <= k < |cohort| ensures lo <= Prices(cohort)[k] <= hi {
      assert cohort[k] in rows;
    }
    MeanWithinBounds(Prices(cohort), lo, hi);
  }

  /**
   * For a valid form and a dataset of positive prices, all three cards are
   * defined: each mean is a mean over a non-empty cohort, lies within the
   * bounds of the prices, and the deviation recovers the predicted price.
   */
  lemma ValidFormHasAllComparisons(form: FormInput, rows: seq<Product>, predictPrice: FeatureRow -> Option<real>, lo: real, hi: real)
    requires ValidForm(form, rows)
    requires predictPrice(BuildFeatureRow(form)).Some?
    requires lo > 0.0 && PricesWithin(rows, lo, hi)
    ensures var res := Predict(form, rows, predictPrice).value;
      && Sound(res.similarProducts, res.price, lo, hi)
      && Sound(res.manufacturerAverage, res.price, lo, hi)
      && Sound(res.marketAverage, res.price, lo, hi)
  {
    var price := predictPrice(BuildFeatureRow(form)).value;
    ChosenValueHasRows(rows, PrimaryIngredient, form.primaryIngredient);
    ChosenValueHasRows(rows, Manufacturer, form.manufacturer);
    CohortIsSound(price, rows, Where(rows, PrimaryIngredient, form.primaryIngredient), lo, hi);
    CohortIsSound(price, rows, Where(rows, Manufacturer, form.manufacturer), lo, hi);
    CohortIsSound(price, rows, rows, lo, hi);
  }

  // ---------------------------------------------------------------------
  // A worked scenario

  /** Paracetamol at 100 from maker A and at 200 from maker B: the ingredient mean is 150. */
  lemma ScenarioCohortMeans()
    ensures var rows := [ExampleRow("A", 100.0), ExampleRow("B", 200.0)];
      && Mean(Prices(Where(rows, PrimaryIngredient, "Paracetamol"))) == Some(150.0)
      && Mean(Prices(Where(rows, Manufacturer, "A"))) == Some(100.0)
  {
    var a, b := ExampleRow("A", 100.0), ExampleRow("B", 200.0);
    var rows := [a, b];
    assert rows[1..] == [b] && rows[1..][1..] == [];
    assert Where(rows, PrimaryIngredient, "Paracetamol") == [a, b];
    assert Prices([a, b]) == [100.0, 200.0];
    assert Sum([100.0, 200.0]) == 300.0 by {
      assert [100.0, 200.0][1..] == [200.0] && [200.0][1..] == [];
    }
    assert "A" != "B";
    assert Where(rows, Manufacturer, "A") == [a];
    assert Prices([a]) == [100.0];
    assert Sum([100.0]) == 100.0 by {
      assert [100.0][1..] == [];
    }
  }

  /** A row that occurs twice in the dataset is counted twice in its cohort's mean. */
  lemma ScenarioDuplicateRows()
    ensures var a, b := ExampleRow("A", 100.0), ExampleRow("B", 200.0);
      Mean(Prices(Where([a, a, b], PrimaryIngredient, "Paracetamol"))) == Some(400.0 / 3.0)
  {
    var a, b := ExampleRow("A", 100.0), ExampleRow("B", 200.0);
    var rows := [a, a, b];
    assert rows[1..] == [a, b] && rows[1..][1..] == [b] && rows[1..][1..][1..] == [];
    assert Where([], PrimaryIngredient, "Paracetamol") == [];
    assert Where([b], PrimaryIngredient, "Paracetamol") == [b];
    assert Where([a, b], PrimaryIngredient, "Paracetamol") == [a, b];
    assert Where(rows, PrimaryIngredient, "Paracetamol") == [a, a, b];
    assert Prices([a, a, b]) == [100.0, 100.0, 200.0];
    assert Sum([100.0, 100.0, 200.0]) == 400.0 by {
      assert [100.0, 100.0, 200.0][1..] == [100.0, 200.0];
      assert [100.0, 200.0][1..] == [200.0] && [200.0][1..] == [];
    }
  }
}
