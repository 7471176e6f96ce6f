/**
 * The product explorer: a keyword search over brand names and/or primary
 * ingredients, keeping the dataset's rows in their original order.
 */
module Explorer {
  import opened Wrappers
  import opened Text
  import opened Dataset

  /** The three entries of the "Search Type" drop-down. */
  datatype Scope = Both | BrandNamesOnly | IngredientsOnly

  /**
   * The branch the search takes for the selected entry: "Both", then
   * "Brand Names Only", and every other entry searches ingredients.
   */
  function ScopeOf(searchType: string): (sc: Scope)
    ensures sc == Both <==> searchType == "Both"
    ensures sc == BrandNamesOnly <==> searchType == "Brand Names Only"
    ensures sc == IngredientsOnly <==> searchType != "Both" && searchType != "Brand Names Only"
  {
    if searchType == "Both" then Both
    else if searchType == "Brand Names Only" then BrandNamesOnly
    else IngredientsOnly
  }

  /** `str.contains(keyword, case=False, na=False)` on one cell: a missing cell never matches. */
  predicate CellContains(cell: Option<string>, keyword: string)
  {
    cell.Some? && ContainsIgnoringCase(cell.value, keyword)
  }

  /** The row mask of the selected branch. */
  predicate Keeps(r: Product, keyword: string, scope: Scope): (b: bool)
    ensures b <==>
      || (scope != IngredientsOnly && CellContains(r.brandName, keyword))
      || (scope != BrandNamesOnly && CellContains(r.primaryIngredient, keyword))
  {
    match scope
    case Both => CellContains(r.primaryIngredient, keyword) || CellContains(r.brandName, keyword)
    case BrandNamesOnly => CellContains(r.brandName, keyword)
    case IngredientsOnly => CellContains(r.primaryIngredient, keyword)
  }

  /** `df[mask]`: the rows the mask keeps, in dataset order. */
  function FilterRows(rows: seq<Product>, keyword: string, scope: Scope): (res: seq<Product>)
    ensures |res| <= |rows|
    ensures forall r :: r in res <==> r in rows && Keeps(r, keyword, scope)
    ensures forall r {:trigger multiset(res)[r]} :: multiset(res)[r] == (if Keeps(r, keyword, scope) then multiset(rows)[r] else 0)
  {
    if rows == [] then []
    else
      assert rows == [rows[0]] + rows[1..];
      (if Keeps(rows[0], keyword, scope) then [rows[0]] else []) + FilterRows(rows[1..], keyword, scope)
  }

  /** The search as the page runs it: nothing at all for an empty keyword. */
  function Search(keyword: string, searchType: string, rows: seq<Product>): (res: Option<seq<Product>>)
    ensures res.None? <==> keyword == ""
    ensures res.Some? ==> forall r :: r in res.value <==> r in rows && Keeps(r, keyword, ScopeOf(searchType))
    ensures res.Some? ==> forall r ::
      multiset(res.value)[r] == (if Keeps(r, keyword, ScopeOf(searchType)) then multiset(rows)[r] else 0)
  {
    if keyword == "" then None else Some(FilterRows(rows, keyword, ScopeOf(searchType)))
  }

  // ---------------------------------------------------------------------
  // Order: the result only drops rows

  lemma {:induction false} FilterIsSubsequence(rows: seq<Product>, keyword: string, scope: Scope)
    ensures IsSubsequence(FilterRows(rows, keyword, scope), rows)
  {
    if rows != [] {
      FilterIsSubsequence(rows[1..], keyword, scope);
      var rest := FilterRows(rows[1..], keyword, scope);
      if Keeps(rows[0], keyword, scope) {
        assert FilterRows(rows, keyword, scope) == [rows[0]] + rest;
        assert ([rows[0]] + rest)[1..] == rest;
      } else {
        assert FilterRows(rows, keyword, scope) == rest;
      }
    }
  }

  /** The search result is a subsequence of the dataset. */
  lemma SearchIsSubsequence(keyword: string, searchType: string, rows: seq<Product>)
    requires keyword != ""
    ensures Search(keyword, searchType, rows).Some?
    ensures IsSubsequence(Search(keyword, searchType, rows).value, rows)
  {
    FilterIsSubsequence(rows, keyword, ScopeOf(searchType));
  }

  // ---------------------------------------------------------------------
  // "Both" is the union of the two single-field searches

  lemma BothIsEitherField(r: Product, keyword: string)
    ensures Keeps(r, keyword, Both) <==> Keeps(r, keyword, BrandNamesOnly) || Keeps(r, keyword, IngredientsOnly)
  {
  }

  /** Narrowing the "Both" result to one field gives that field's own result, in the same order. */
  lemma {:induction false} NarrowingBoth(rows: seq<Product>, keyword: string, scope: Scope)
    requires scope != Both
    ensures FilterRows(FilterRows(rows, keyword, Both), keyword, scope) == FilterRows(rows, keyword, scope)
  {
    if rows != [] {
      NarrowingBoth(rows[1..], keyword, scope);
      var both := FilterRows(rows, keyword, Both);
      var rest := FilterRows(rows[1..], keyword, Both);
      if Keeps(rows[0], keyword, Both) {
        assert both == [rows[0]] + rest;
        assert both[1..] == rest;
      } else {
        assert both == rest;
      }
    }
  }

  /**
   * The "Both" result contains the brand-name result and the ingredient
   * result, each as a subsequence, and holds nothing else.
   */
  lemma BothContainsEachScope(rows: seq<Product>, keyword: string)
    ensures IsSubsequence(FilterRows(rows, keyword, BrandNamesOnly), FilterRows(rows, keyword, Both))
    ensures IsSubsequence(FilterRows(rows, keyword, IngredientsOnly), FilterRows(rows, keyword, Both))
    ensures forall r :: r in FilterRows(rows, keyword, Both) <==>
      r in FilterRows(rows, keyword, BrandNamesOnly) || r in FilterRows(rows, keyword, IngredientsOnly)
  {
    var both := FilterRows(rows, keyword, Both);
    NarrowingBoth(rows, keyword, BrandNamesOnly);
    NarrowingBoth(rows, keyword, IngredientsOnly);
    FilterIsSubsequence(both, keyword, BrandNamesOnly);
    FilterIsSubsequence(both, keyword, IngredientsOnly);
  }

  // ---------------------------------------------------------------------
  // A single-field search looks at its field only

  /** a and b are the same row apart, perhaps, from the primary ingredient. */
  predicate SameExceptIngredient(a: Product, b: Product)
  {
    a.(primaryIngredient := b.primaryIngredient) == b
  }

  /** a and b are the same row apart, perhaps, from the brand name. */
  predicate SameExceptBrand(a: Product, b: Product)
  {
    a.(brandName := b.brandName) == b
  }

  lemma SameExceptIngredientCons(x: Product, x': Product, t: seq<Product>, t': seq<Product>)
    requires SameExceptIngredient(x, x') && |t| == |t'|
    requires forall k :: 0 <= k < |t| ==> SameExceptIngredient(t[k], t'[k])
    ensures |[x] + t| == |[x'] + t'|
    ensures forall k :: 0 <= k < |[x] + t| ==> SameExceptIngredient(([x] + t)[k], ([x'] + t')[k])
  {
  }

  lemma SameExceptBrandCons(x: Product, x': Product, t: seq<Product>, t': seq<Product>)
    requires SameExceptBrand(x, x') && |t| == |t'|
    requires forall k :: 0 <= k < |t| ==> SameExceptBrand(t[k], t'[k])
    ensures |[x] + t| == |[x'] + t'|
    ensures forall k :: 0 <= k < |[x] + t| ==> SameExceptBrand(([x] + t)[k], ([x'] + t')[k])
  {
  }

  /**
   * Changing the ingredients of any rows leaves the brand-name search
   * picking the same rows.
   */
  lemma {:induction false} BrandSearchIgnoresIngredient(rows: seq<Product>, rows': seq<Product>, keyword: string)
    requires |rows| == |rows'|
    requires forall k :: 0 <= k < |rows| ==> SameExceptIngredient(rows[k], rows'[k])
    ensures |FilterRows(rows', keyword, BrandNamesOnly)| == |FilterRows(rows, keyword, BrandNamesOnly)|
    ensures forall k :: 0 <= k < |FilterRows(rows, keyword, BrandNamesOnly)| ==>
      SameExceptIngredient(FilterRows(rows, keyword, BrandNamesOnly)[k], FilterRows(rows', keyword, BrandNamesOnly)[k])
  {
    if rows != [] {
      BrandSearchIgnoresIngredient(rows[1..], rows'[1..], keyword);
      assert rows[0].brandName == rows'[0].brandName;
      var t, t' := FilterRows(rows[1..], keyword, BrandNamesOnly), FilterRows(rows'[1..], keyword, BrandNamesOnly);
      if Keeps(rows[0], keyword, BrandNamesOnly) {
        assert FilterRows(rows, keyword, BrandNamesOnly) == [rows[0]] + t;
        assert FilterRows(rows', keyword, BrandNamesOnly) == [rows'[0]] + t';
        SameExceptIngredientCons(rows[0], rows'[0], t, t');
      } else {
        assert FilterRows(rows, keyword, BrandNamesOnly) == t;
        assert FilterRows(rows', keyword, BrandNamesOnly) == t';
      }
    }
  }

  /**
   * Changing the brand names of any rows leaves the ingredient search
   * picking the same rows.
   */
  lemma {:induction false} IngredientSearchIgnoresBrand(rows: seq<Product>, rows': seq<Product>, keyword: string)
    requires |rows| == |rows'|
    requires forall k :: 0 <= k < |rows| ==> SameExceptBrand(rows[k], rows'[k])
    ensures |FilterRows(rows', keyword, IngredientsOnly)| == |FilterRows(rows, keyword, IngredientsOnly)|
    ensures forall k :: 0 <= k < |FilterRows(rows, keyword, IngredientsOnly)| ==>
      SameExceptBrand(FilterRows(rows, keyword, IngredientsOnly)[k], FilterRows(rows', keyword, IngredientsOnly)[k])
  {
    if rows != [] {
      IngredientSearchIgnoresBrand(rows[1..], rows'[1..], keyword);
      assert rows[0].primaryIngredient == rows'[0].primaryIngredient;
      var t, t' := FilterRows(rows[1..], keyword, IngredientsOnly), FilterRows(rows'[1..], keyword, IngredientsOnly);
      if Keeps(rows[0], keyword, IngredientsOnly) {
        assert FilterRows(rows, keyword, IngredientsOnly) == [rows[0]] + t;
        assert FilterRows(rows', keyword, IngredientsOnly) == [rows'[0]] + t';
        SameExceptBrandCons(rows[0], rows'[0], t, t');
      } else {
        assert FilterRows(rows, keyword, IngredientsOnly) == t;
        assert FilterRows(rows', keyword, IngredientsOnly) == t';
      }
    }
  }

  // ---------------------------------------------------------------------
  // Case is ignored

  /** One row's mask does not depend on the keyword's letter case. */
  lemma KeepsIgnoresKeywordCase(r: Product, keyword: string, scope: Scope)
    ensures Keeps(r, Lower(keyword), scope) == Keeps(r, keyword, scope)
  {
    if r.brandName.Some? { IgnoringCaseOfNeedle(r.brandName.value, keyword); }
    if r.primaryIngredient.Some? { IgnoringCaseOfNeedle(r.primaryIngredient.value, keyword); }
  }

  /** The keyword's letter case does not change the result. */
  lemma {:induction false} KeywordCaseIgnored(rows: seq<Product>, keyword: string, scope: Scope)
    ensures FilterRows(rows, Lower(keyword), scope) == FilterRows(rows, keyword, scope)
  {
    if rows != [] {
      KeywordCaseIgnored(rows[1..], keyword, scope);
      KeepsIgnoresKeywordCase(rows[0], keyword, scope);
      var t := FilterRows(rows[1..], keyword, scope);
      if Keeps(rows[0], keyword, scope) {
        assert FilterRows(rows, Lower(keyword), scope) == [rows[0]] + t;
        assert FilterRows(rows, keyword, scope) == [rows[0]] + t;
      } else {
        assert FilterRows(rows, Lower(keyword), scope) == t;
        assert FilterRows(rows, keyword, scope) == t;
      }
    }
  }

  // ---------------------------------------------------------------------
  // A worked scenario

  /** Two Paracetamol rows: an ingredient search for "paracetamol" returns both, in order. */
  lemma ScenarioIngredientSearch()
    ensures var rows := [ExampleRow("A", 100.0), ExampleRow("B", 200.0)];
      Search("paracetamol", "Ingredients Only", rows) == Some(rows)
  {
    var rows := [ExampleRow("A", 100.0), ExampleRow("B", 200.0)];
    assert Lower("Paracetamol") == "paracetamol";
    assert Lower("paracetamol") == "paracetamol";
    assert "paracetamol"[..|"paracetamol"|] == "paracetamol";
    assert Contains("paracetamol", "paracetamol");
    assert ContainsIgnoringCase("Paracetamol", "paracetamol");
    assert Keeps(rows[0], "paracetamol", IngredientsOnly);
    assert Keeps(rows[1], "paracetamol", IngredientsOnly);
    assert rows[1..][1..] == [];
    assert FilterRows(rows[1..][1..], "paracetamol", IngredientsOnly) == [];
    assert FilterRows(rows[1..], "paracetamol", IngredientsOnly) == [rows[1]];
    assert FilterRows(rows, "paracetamol", IngredientsOnly) == [rows[0]] + [rows[1]];
    assert ScopeOf("Ingredients Only") == IngredientsOnly;
    assert |"paracetamol"| > 0;
    assert rows == [rows[0]] + [rows[1]];
    assert Search("paracetamol", "Ingredients Only", rows) == Some(FilterRows(rows, "paracetamol", IngredientsOnly));
  }
}
