/**
 * The strength extractor of the prediction form: the first numeric token of
 * a free text, found by a search for the pattern (\d+\.?\d*), read as a
 * number of milligrams.
 */
module Strength {
  import opened Wrappers

  predicate IsDigit(c: char) { '0' <= c <= '9' }

  predicate AllDigits(s: string) { forall k :: 0 <= k < |s| ==> IsDigit(s[k]) }

  predicate HasDigit(s: string) { exists k :: 0 <= k < |s| && IsDigit(s[k]) }

  function DigitValue(c: char): nat
    requires IsDigit(c)
  {
    c as int - '0' as int
  }

  /** The decimal value of a digit string, most significant digit first. */
  function DigitsValue(ds: string): nat
    requires AllDigits(ds)
  {
    if ds == [] then 0 else DigitsValue(ds[..|ds| - 1]) * 10 + DigitValue(ds[|ds| - 1])
  }

  function Pow10(n: nat): (p: nat)
    ensures p >= 1
  {
    if n == 0 then 1 else 10 * Pow10(n - 1)
  }

  /** n digits never reach 10^n. */
  lemma {:induction false} DigitsValueBelowPow10(ds: string)
    requires AllDigits(ds)
    ensures DigitsValue(ds) < Pow10(|ds|)
  {
    if ds != [] {
      DigitsValueBelowPow10(ds[..|ds| - 1]);
    }
  }

  /**
   * A token matched by the group (\d+\.?\d*): its integer digits and, when
   * the optional point was matched, the (possibly empty) fraction digits.
   */
  datatype Numeral = Numeral(intDigits: string, fracDigits: Option<string>) {

    predicate Valid()
    {
      |intDigits| > 0 && AllDigits(intDigits) && (fracDigits.Some? ==> AllDigits(fracDigits.value))
    }

    /** The matched text itself. */
    function Text(): string
    {
      intDigits + (if fracDigits.Some? then "." + fracDigits.value else "")
    }

    /**
     * The number the token denotes (exact, without binary rounding): its
     * whole part is the integer digits' value, and the fraction digits,
     * shifted left by their count, are the rest.
     */
    function Value(): (r: real)
      requires Valid()
      ensures DigitsValue(intDigits) as real <= r < DigitsValue(intDigits) as real + 1.0
      ensures fracDigits.None? ==> r == DigitsValue(intDigits) as real
      ensures fracDigits.Some? ==>
        (r - DigitsValue(intDigits) as real) * Pow10(|fracDigits.value|) as real == DigitsValue(fracDigits.value) as real
    {
      if fracDigits.Some? then
        var x, p := DigitsValue(fracDigits.value), Pow10(|fracDigits.value|);
        DigitsValueBelowPow10(fracDigits.value);
        WholePlusFraction(DigitsValue(intDigits) as real, x, p);
        DigitsValue(intDigits) as real + x as real / p as real
      else
        DigitsValue(intDigits) as real
    }
  }

  /** The first position at or after i that holds a digit, or |s| when there is none. */
  function FirstDigitFrom(s: string, i: nat): (k: nat)
    requires i <= |s|
    ensures i <= k <= |s|
    ensures forall m :: i <= m < k ==> !IsDigit(s[m])
    ensures k < |s| ==> IsDigit(s[k])
    decreases |s| - i
  {
    if i == |s| || IsDigit(s[i]) then i else FirstDigitFrom(s, i + 1)
  }

  /** The end of the maximal run of digits starting at i. */
  function DigitRunEnd(s: string, i: nat): (k: nat)
    requires i <= |s|
    ensures i <= k <= |s|
    ensures forall m :: i <= m < k ==> IsDigit(s[m])
    ensures k < |s| ==> !IsDigit(s[k])
    decreases |s| - i
  {
    if i < |s| && IsDigit(s[i]) then DigitRunEnd(s, i + 1) else i
  }

  /** Where the token starts: the first digit of the text. */
  function MatchStart(s: string): (k: nat)
    ensures k <= |s|
  {
    FirstDigitFrom(s, 0)
  }

  /**
   * The leftmost, greedy match of (\d+\.?\d*): the digit run at the first
   * digit, then a point if one follows, then the digit run after it.
   */
  function Scan(s: string): (r: Option<Numeral>)
    ensures r.None? <==> !HasDigit(s)
    ensures r.Some? ==> r.value.Valid()
  {
    var i := MatchStart(s);
    if i == |s| then None
    else
      var d := DigitRunEnd(s, i);
      if d < |s| && s[d] == '.' then
        Some(Numeral(s[i..d], Some(s[d + 1..DigitRunEnd(s, d + 1)])))
      else
        Some(Numeral(s[i..d], None))
  }

  /** extract_strength: absent input or no number gives absent, otherwise the first number. */
  function ExtractStrength(text: Option<string>): (r: Option<real>)
    ensures text.None? ==> r.None?
    ensures text.Some? ==> (r.None? <==> !HasDigit(text.value))
    ensures r.Some? ==> r.value >= 0.0
  {
    match text
    case None => None
    case Some(s) =>
      match Scan(s)
      case None => None
      case Some(n) => Some(n.Value())
  }

  // ---------------------------------------------------------------------
  // The pattern as a language, independent of the scanner

  /**
   * w splits at p into the parts of (\d+\.?\d*): p >= 1 digits, then either
   * only digits, or a point followed by only digits.
   */
  ghost predicate SplitsAt(w: string, p: nat)
  {
    && 1 <= p <= |w|
    && AllDigits(w[..p])
    && (AllDigits(w[p..]) || (p < |w| && w[p] == '.' && AllDigits(w[p + 1..])))
  }

  /** w is matched entirely by (\d+\.?\d*). */
  ghost predicate InPattern(w: string)
  {
    exists p: nat :: SplitsAt(w, p)
  }

  lemma PatternStartsWithDigit(w: string)
    requires InPattern(w)
    ensures |w| > 0 && IsDigit(w[0])
  {
    var p: nat :| SplitsAt(w, p);
    assert w[..p][0] == w[0];
  }

  lemma DigitRunEndUnique(s: string, i: nat, k: nat)
    requires i <= k <= |s|
    requires forall m :: i <= m < k ==> IsDigit(s[m])
    requires k < |s| ==> !IsDigit(s[k])
    ensures DigitRunEnd(s, i) == k
  {
  }

  lemma FirstDigitUnique(s: string, k: nat)
    requires k <= |s|
    requires forall m :: 0 <= m < k ==> !IsDigit(s[m])
    requires k < |s| ==> IsDigit(s[k])
    ensures MatchStart(s) == k
  {
  }

  /** The matched text ends here. */
  function MatchEnd(s: string): (k: nat)
    requires HasDigit(s)
  {
    MatchStart(s) + |Scan(s).value.Text()|
  }

  lemma MatchEndIsKnown(s: string)
    requires HasDigit(s)
    ensures var i := MatchStart(s); var d := DigitRunEnd(s, i);
      && MatchEnd(s) == (if d < |s| && s[d] == '.' then DigitRunEnd(s, d + 1) else d)
      && MatchEnd(s) <= |s|
  {
    var i := MatchStart(s);
    assert i < |s|;
    var d := DigitRunEnd(s, i);
    if d < |s| && s[d] == '.' {
      var e := DigitRunEnd(s, d + 1);
      var n := Numeral(s[i..d], Some(s[d + 1..e]));
      assert Scan(s) == Some(n);
      assert |n.Text()| == (d - i) + 1 + (e - d - 1);
      assert MatchEnd(s) == i + |n.Text()| == e;
    } else {
      var n := Numeral(s[i..d], None);
      assert Scan(s) == Some(n);
      assert |n.Text()| == d - i;
      assert MatchEnd(s) == i + |n.Text()| == d;
    }
  }

  lemma MatchedText(s: string)
    requires HasDigit(s)
    ensures MatchEnd(s) <= |s| && s[MatchStart(s)..MatchEnd(s)] == Scan(s).value.Text()
  {
    MatchEndIsKnown(s);
    var i := MatchStart(s);
    var d := DigitRunEnd(s, i);
    if d < |s| && s[d] == '.' {
      var e := DigitRunEnd(s, d + 1);
      assert Scan(s).value.fracDigits == Some(s[d + 1..e]);
      assert s[i..e] == s[i..d] + [s[d]] + s[d + 1..e];
    }
  }

  /** A match of the pattern can only start at a digit, so never before the first one. */
  lemma NoMatchBeforeFirstDigit(s: string, i: nat, j: nat)
    requires i <= j <= |s| && InPattern(s[i..j])
    ensures HasDigit(s) && MatchStart(s) <= i
  {
    PatternStartsWithDigit(s[i..j]);
    assert s[i..j][0] == s[i];
  }

  /** What the scanner returns is matched by the pattern. */
  lemma MatchIsInPattern(s: string)
    requires HasDigit(s)
    ensures MatchEnd(s) <= |s| && InPattern(s[MatchStart(s)..MatchEnd(s)])
  {
    var i := MatchStart(s);
    var d := DigitRunEnd(s, i);
    var j := MatchEnd(s);
    MatchEndIsKnown(s);
    var w := s[i..j];
    assert w[..d - i] == s[i..d];
    if d < |s| && s[d] == '.' {
      assert w[d - i] == '.';
      assert w[d - i + 1..] == s[d + 1..j];
    } else {
      assert w[d - i..] == [];
    }
    assert SplitsAt(w, d - i);
  }

  /** The digit prefix of a candidate match at i lies within the digit run at i. */
  lemma DigitPrefixWithinRun(s: string, i: nat, j': nat, p: nat)
    requires i + p <= j' <= |s| && AllDigits(s[i..j'][..p])
    ensures i + p <= DigitRunEnd(s, i)
  {
    forall m | i <= m < i + p ensures IsDigit(s[m]) {
      assert s[i..j'][..p][m - i] == s[m];
    }
  }

  /**
   * A candidate at i that runs past the digit run at i, and past the digit
   * run after a point that follows it, splits nowhere into the parts of
   * the pattern.
   */
  lemma PastRunsDoesNotSplit(s: string, i: nat, j': nat, p: nat)
    requires i <= |s|
    requires var d := DigitRunEnd(s, i);
      (if d < |s| && s[d] == '.' then DigitRunEnd(s, d + 1) else d) < j' <= |s|
    ensures !SplitsAt(s[i..j'], p)
  {
    var d := DigitRunEnd(s, i);
    var w := s[i..j'];
    if 1 <= p <= |w| && AllDigits(w[..p]) {
      DigitPrefixWithinRun(s, i, j', p);
      assert w[p..][d - i - p] == s[d];
      if p < |w| && w[p] == '.' {
        assert w[p] == s[i + p];
        var e := DigitRunEnd(s, d + 1);
        assert w[p + 1..][e - d - 1] == s[e];
      }
    }
  }

  /** A candidate longer than the scanner's match splits nowhere into the parts of the pattern. */
  lemma LongerDoesNotSplit(s: string, j': nat, p: nat)
    requires HasDigit(s) && MatchEnd(s) < j' <= |s|
    ensures !SplitsAt(s[MatchStart(s)..j'], p)
  {
    MatchEndIsKnown(s);
    PastRunsDoesNotSplit(s, MatchStart(s), j', p);
  }

  /** No match starting where the scanner's does is longer than it. */
  lemma NoLongerMatch(s: string, j': nat)
    requires HasDigit(s) && MatchEnd(s) < j' <= |s|
    ensures !InPattern(s[MatchStart(s)..j'])
  {
    forall p: nat ensures !SplitsAt(s[MatchStart(s)..j'], p) {
      LongerDoesNotSplit(s, j', p);
    }
  }

  /**
   * The scanner agrees with a regular-expression search for (\d+\.?\d*):
   * no match anywhere when it finds nothing; otherwise what it returns is
   * matched by the pattern, no match starts further left, and no longer
   * match starts at the same place.
   */
  lemma ScanIsLeftmostLongest(s: string)
    ensures Scan(s).None? ==> forall i, j :: 0 <= i <= j <= |s| ==> !InPattern(s[i..j])
    ensures Scan(s).Some? ==>
      var i := MatchStart(s); var j := MatchEnd(s);
      && j <= |s| && s[i..j] == Scan(s).value.Text() && InPattern(s[i..j])
      && (forall i', j' :: 0 <= i' < i && i' <= j' <= |s| ==> !InPattern(s[i'..j']))
      && (forall j' :: j < j' <= |s| ==> !InPattern(s[i..j']))
  {
    forall i, j | 0 <= i <= j <= |s| && InPattern(s[i..j])
      ensures HasDigit(s) && MatchStart(s) <= i
    {
      NoMatchBeforeFirstDigit(s, i, j);
    }
    if HasDigit(s) {
      MatchedText(s);
      MatchIsInPattern(s);
      forall j' | MatchEnd(s) < j' <= |s| ensures !InPattern(s[MatchStart(s)..j']) {
        NoLongerMatch(s, j');
      }
    }
  }

  /** The scan of a text whose first number has a point. */
  lemma ScanWithPoint(s: string, i: nat, d: nat, e: nat)
    requires i < d < e <= |s| && s[d] == '.'
    requires MatchStart(s) == i && DigitRunEnd(s, i) == d && DigitRunEnd(s, d + 1) == e
    ensures Scan(s) == Some(Numeral(s[i..d], Some(s[d + 1..e])))
  {
  }

  /** The scan of a text whose first number has no point. */
  lemma ScanWithoutPoint(s: string, i: nat, d: nat)
    requires i < d <= |s| && (d < |s| ==> s[d] != '.')
    requires MatchStart(s) == i && DigitRunEnd(s, i) == d
    ensures Scan(s) == Some(Numeral(s[i..d], None))
  {
  }

  /**
   * Decomposition: a text made of a digit-free prefix, the written form of a
   * numeral, and a rest that cannot extend it scans to that numeral.
   */
  lemma ScanOfNumeralText(prefix: string, n: Numeral, rest: string)
    requires !HasDigit(prefix)
    requires n.Valid()
    requires rest != [] ==> !IsDigit(rest[0]) && (n.fracDigits.None? ==> rest[0] != '.')
    ensures Scan(prefix + n.Text() + rest) == Some(n)
  {
    var s := prefix + n.Text() + rest;
    var i := |prefix|;
    var a := i + |n.intDigits|;
    assert s[i..a] == n.intDigits;
    FirstDigitUnique(s, i);
    if n.fracDigits.Some? {
      var f := n.fracDigits.value;
      var e := a + 1 + |f|;
      assert s[a] == '.';
      DigitRunEndUnique(s, i, a);
      assert s[a + 1..e] == f;
      assert e < |s| ==> s[e] == rest[0];
      DigitRunEndUnique(s, a + 1, e);
      ScanWithPoint(s, i, a, e);
    } else {
      assert a < |s| ==> s[a] == rest[0];
      DigitRunEndUnique(s, i, a);
      ScanWithoutPoint(s, i, a);
    }
  }

  /** Every valid numeral, written out, scans back to itself. */
  lemma ScanOfText(n: Numeral)
    requires n.Valid()
    ensures Scan(n.Text()) == Some(n)
  {
    ScanOfNumeralText("", n, "");
    assert "" + n.Text() + "" == n.Text();
  }

  /**
   * Conversely every scan result sits in its text that way: before it no
   * digit, after it nothing that could have extended it.
   */
  lemma TextAroundScan(s: string)
    requires HasDigit(s)
    ensures var i := MatchStart(s); var j := MatchEnd(s); var n := Scan(s).value;
      && s == s[..i] + n.Text() + s[j..]
      && !HasDigit(s[..i])
      && (j < |s| ==> !IsDigit(s[j]) && (n.fracDigits.None? ==> s[j] != '.'))
  {
    var i := MatchStart(s);
    var j := MatchEnd(s);
    MatchEndIsKnown(s);
    MatchedText(s);
    assert s == s[..i] + s[i..j] + s[j..];
  }

  /**
   * Numbers after the first token never matter: once the token is followed
   * by some character, whatever comes later leaves the scan unchanged.
   */
  lemma LaterTextIgnored(s: string, t: string)
    requires HasDigit(s)
    requires MatchEnd(s) < |s|
    ensures Scan(s + t) == Scan(s)
  {
    TextAroundScan(s);
    var i, j := MatchStart(s), MatchEnd(s);
    var n := Scan(s).value;
    var prefix, rest := s[..i], s[j..];
    SplitAppend(s, t, prefix, n.Text(), rest);
    assert (rest + t)[0] == rest[0];
    ScanOfNumeralText(prefix, n, rest + t);
  }

  lemma SplitAppend(s: string, t: string, a: string, b: string, c: string)
    requires s == a + b + c
    ensures s + t == a + b + (c + t)
  {
  }

  /** A whole number plus a proper fraction x/p: the fraction is what is left, and it is below one. */
  lemma WholePlusFraction(whole: real, x: nat, p: nat)
    requires x < p
    ensures whole <= whole + x as real / p as real < whole + 1.0
    ensures (whole + x as real / p as real - whole) * p as real == x as real
  {
    FractionBelowOne(x, p);
    var q := x as real / p as real;
    assert whole + q - whole == q;
  }

  /** A fraction with a numerator below its denominator stays below one. */
  lemma FractionBelowOne(x: nat, p: nat)
    requires x < p
    ensures 0.0 <= x as real / p as real < 1.0
    ensures (x as real / p as real) * p as real == x as real
  {
    var q := x as real / p as real;
    assert q * p as real == x as real;
  }

  /**
   * The value of the extractor: a digit-free prefix, a numeral and a rest
   * that cannot extend it give exactly the numeral's value.
   */
  lemma ExtractStrengthOfNumeralText(prefix: string, n: Numeral, rest: string)
    requires !HasDigit(prefix)
    requires n.Valid()
    requires rest != [] ==> !IsDigit(rest[0]) && (n.fracDigits.None? ==> rest[0] != '.')
    ensures ExtractStrength(Some(prefix + n.Text() + rest)) == Some(n.Value())
  {
    ScanOfNumeralText(prefix, n, rest);
  }

  // ---------------------------------------------------------------------
  // The behaviour on the texts the form is expected to receive

  lemma ExampleDecimal()
    ensures ExtractStrength(Some("650.5 mg")) == Some(650.5)
  {
    var n := Numeral("650", Some("5"));
    assert "650"[..2] == "65" && "65"[..1] == "6";
    ScanOfNumeralText("", n, " mg");
    assert "" + n.Text() + " mg" == "650.5 mg";
  }

  lemma ExampleInteger()
    ensures ExtractStrength(Some("500")) == Some(500.0)
  {
    var n := Numeral("500", None);
    assert "500"[..2] == "50" && "50"[..1] == "5";
    assert DigitsValue("5") == 5 && DigitsValue("50") == 50 && DigitsValue("500") == 500;
    ScanOfText(n);
    assert n.Text() == "500";
  }

  lemma ExampleTrailingPoint()
    ensures ExtractStrength(Some("5.")) == Some(5.0)
  {
    var n := Numeral("5", Some(""));
    ScanOfText(n);
    assert n.Text() == "5.";
  }

  lemma ExampleLeadingPoint()
    ensures ExtractStrength(Some(".5")) == Some(5.0)
  {
    var n := Numeral("5", None);
    assert !HasDigit(".");
    ScanOfNumeralText(".", n, "");
    assert "." + n.Text() + "" == ".5";
  }

  lemma ExampleCombination()
    ensures ExtractStrength(Some("250/125 mg")) == Some(250.0)
  {
    var n := Numeral("250", None);
    assert "250"[..2] == "25" && "25"[..1] == "2";
    assert DigitsValue("2") == 2 && DigitsValue("25") == 25 && DigitsValue("250") == 250;
    ScanOfNumeralText("", n, "/125 mg");
    assert "" + n.Text() + "/125 mg" == "250/125 mg";
  }

  lemma ExampleNoNumber()
    ensures ExtractStrength(Some("Paracetamol")) == None
    ensures ExtractStrength(Some("")) == None
    ensures ExtractStrength(None) == None
  {
    assert !HasDigit("Paracetamol") by {
      forall k | 0 <= k < |"Paracetamol"| ensures !IsDigit("Paracetamol"[k]) { }
    }
  }
}
