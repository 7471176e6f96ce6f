/**
 * Text helpers for the explorer search: ASCII lower-casing and literal
 * substring search, which together stand for a case-insensitive
 * `str.contains`.
 */
module Text {

  predicate IsUpper(c: char) { 'A' <= c <= 'Z' }

  /** The ASCII lower-case form of a character; every other character is kept. */
  function LowerChar(c: char): char
  {
    if IsUpper(c) then (c as int + 32) as char else c
  }

  function Lower(s: string): (r: string)
    ensures |r| == |s|
    ensures forall i :: 0 <= i < |s| ==> r[i] == LowerChar(s[i])
  {
    seq(|s|, i requires 0 <= i < |s| => LowerChar(s[i]))
  }

  /** Lower-casing twice is lower-casing once. */
  lemma LowerIdempotent(s: string)
    ensures Lower(Lower(s)) == Lower(s)
  {
  }

  /** `needle` occurs in `hay` starting at position `i`. */
  predicate OccursAt(hay: string, needle: string, i: nat)
  {
    i + |needle| <= |hay| && hay[i..i + |needle|] == needle
  }

  /** A needle longer than the text occurs nowhere in it. */
  lemma NoRoom(hay: string, needle: string)
    requires |needle| > |hay|
    ensures !exists i: nat :: OccursAt(hay, needle, i)
  {
    forall i: nat ensures !OccursAt(hay, needle, i) { }
  }

  /** Past a mismatch at position 0, the needle occurs in hay exactly when it occurs in hay[1..]. */
  lemma OccursPastFirst(hay: string, needle: string)
    requires |hay| > 0 && !OccursAt(hay, needle, 0)
    ensures (exists i: nat :: OccursAt(hay[1..], needle, i)) <==> exists i: nat :: OccursAt(hay, needle, i)
  {
    forall i: nat ensures OccursAt(hay[1..], needle, i) <==> OccursAt(hay, needle, i + 1) {
      if i + 1 + |needle| <= |hay| {
        assert hay[1..][i..i + |needle|] == hay[i + 1..i + 1 + |needle|];
      }
    }
    if exists i: nat :: OccursAt(hay, needle, i) {
      var i: nat :| OccursAt(hay, needle, i);
      assert i != 0;
      assert OccursAt(hay[1..], needle, i - 1);
    }
  }

  /**
   * Literal substring search, scanning start positions from the left: it
   * holds exactly when the needle occurs at some position.
   */
  function Contains(hay: string, needle: string): (b: bool)
    ensures b <==> exists i: nat :: OccursAt(hay, needle, i)
    decreases |hay|
  {
    if |needle| > |hay| then
      NoRoom(hay, needle);
      false
    else if hay[..|needle|] == needle then
      assert OccursAt(hay, needle, 0);
      true
    else
      OccursPastFirst(hay, needle);
      Contains(hay[1..], needle)
  }

  /**
   * Case-insensitive substring test: both sides are lower-cased first, and
   * the lower-cased needle occurs somewhere in the lower-cased text.
   */
  predicate ContainsIgnoringCase(hay: string, needle: string): (b: bool)
    ensures b <==> exists i: nat :: OccursAt(Lower(hay), Lower(needle), i)
  {
    Contains(Lower(hay), Lower(needle))
  }

  /** The test does not depend on the case in which the needle is written. */
  lemma IgnoringCaseOfNeedle(hay: string, needle: string)
    ensures ContainsIgnoringCase(hay, Lower(needle)) == ContainsIgnoringCase(hay, needle)
  {
    LowerIdempotent(needle);
  }
}
