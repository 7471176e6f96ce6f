/**
 * The product dataset: one row per product, loaded once and only read.
 * Text cells may be missing, as pandas' NaN.
 */
module Dataset {
  import opened Wrappers

  datatype Product = Product(
    brandName: Option<string>,
    manufacturer: Option<string>,
    dosageForm: Option<string>,
    packUnit: Option<string>,
    primaryIngredient: Option<string>,
    therapeuticClass: Option<string>,
    packSize: real,
    numActiveIngredients: int,
    isDiscontinued: bool,
    primaryStrengthMg: Option<real>,
    priceInr: real)

  /** The text columns of the dataset. */
  datatype TextColumn = BrandName | Manufacturer | DosageForm | PackUnit | PrimaryIngredient | TherapeuticClass

  function Cell(r: Product, c: TextColumn): Option<string>
  {
    match c
    case BrandName => r.brandName
    case Manufacturer => r.manufacturer
    case DosageForm => r.dosageForm
    case PackUnit => r.packUnit
    case PrimaryIngredient => r.primaryIngredient
    case TherapeuticClass => r.therapeuticClass
  }

  /**
   * The distinct non-missing values of a column (`dropna().unique()`): the
   * options of the form's drop-down for that column.
   */
  function Choices(rows: seq<Product>, c: TextColumn): (vs: set<string>)
    ensures forall v :: v in vs <==> exists k :: 0 <= k < |rows| && Cell(rows[k], c) == Some(v)
  {
    set k | 0 <= k < |rows| && Cell(rows[k], c).Some? :: Cell(rows[k], c).value
  }

  /** The rows whose cell in column c equals v (`df[df[c] == v]`); a missing cell equals nothing. */
  function Where(rows: seq<Product>, c: TextColumn, v: string): (sel: seq<Product>)
    ensures |sel| <= |rows|
    ensures forall r :: r in sel <==> r in rows && Cell(r, c) == Some(v)
    ensures forall r {:trigger multiset(sel)[r]} :: multiset(sel)[r] == (if Cell(r, c) == Some(v) then multiset(rows)[r] else 0)
  {
    if rows == [] then []
    else
      assert rows == [rows[0]] + rows[1..];
      (if Cell(rows[0], c) == Some(v) then [rows[0]] else []) + Where(rows[1..], c, v)
  }

  /** xs is what remains of ys after dropping some of its elements, the rest left in order. */
  predicate IsSubsequence<T(==)>(xs: seq<T>, ys: seq<T>)
    decreases |ys|
  {
    if ys == [] then xs == []
    else (xs != [] && xs[0] == ys[0] && IsSubsequence(xs[1..], ys[1..])) || IsSubsequence(xs, ys[1..])
  }

  /** A cohort keeps the dataset's order: rows are only dropped. */
  lemma {:induction false} WhereIsSubsequence(rows: seq<Product>, c: TextColumn, v: string)
    ensures IsSubsequence(Where(rows, c, v), rows)
  {
    if rows != [] {
      WhereIsSubsequence(rows[1..], c, v);
      var rest := Where(rows[1..], c, v);
      if Cell(rows[0], c) == Some(v) {
        assert Where(rows, c, v) == [rows[0]] + rest;
        assert ([rows[0]] + rest)[1..] == rest;
      } else {
        assert Where(rows, c, v) == rest;
      }
    }
  }

  /** A value offered by the drop-down always selects at least one row. */
  lemma {:induction false} ChosenValueHasRows(rows: seq<Product>, c: TextColumn, v: string)
    requires v in Choices(rows, c)
    ensures |Where(rows, c, v)| > 0
  {
    var k :| 0 <= k < |rows| && Cell(rows[k], c) == Some(v);
    assert rows[k] in Where(rows, c, v);
  }

  /** The price column. */
  function Prices(rows: seq<Product>): (ps: seq<real>)
    ensures |ps| == |rows|
    ensures forall k :: 0 <= k < |rows| ==> ps[k] == rows[k].priceInr
  {
    seq(|rows|, k requires 0 <= k < |rows| => rows[k].priceInr)
  }

  /** A Paracetamol row from the given manufacturer at the given price, for worked scenarios. */
  function ExampleRow(manufacturer: string, price: real): Product
  {
    Product(Some("Brand " + manufacturer), Some(manufacturer), Some("Tablet"), Some("strip"),
            Some("Paracetamol"), Some("pain analgesics"), 10.0, 1, false, Some(500.0), price)
  }
}
