/**
 * The string primitives the application relies on: ASCII lower-casing (for the
 * case-insensitive search), substring and prefix/suffix tests, and trimming of
 * ECMAScript white space.
 */
module Text {

  /** Maps an ASCII capital letter to its small letter; every other character is kept. */
  function LowerChar(c: char): char {
    if 'A' <= c <= 'Z' then (c as int + 32) as char else c
  }

  /** Lower-cases a string, character by character. */
  function Lower(s: string): (r: string)
    ensures |r| == |s|
    ensures forall k :: 0 <= k < |s| ==> r[k] == LowerChar(s[k])
  {
    if s == [] then [] else [LowerChar(s[0])] + Lower(s[1..])
  }

  /** A lower-cased string is left alone by lower-casing it again. */
  lemma LowerIdempotent(s: string)
    ensures Lower(Lower(s)) == Lower(s)
  {
    assert forall k :: 0 <= k < |s| ==> LowerChar(LowerChar(s[k])) == LowerChar(s[k]);
  }

  /** String.prototype.startsWith: `s` begins with `prefix`, character by character. */
  predicate StartsWith(s: string, prefix: string): (r: bool)
    ensures r <==> |prefix| <= |s| && forall k :: 0 <= k < |prefix| ==> s[k] == prefix[k]
  {
    |prefix| <= |s| && s[..|prefix|] == prefix
  }

  /** String.prototype.endsWith: `s` ends with `suffix`, character by character. */
  predicate EndsWith(s: string, suffix: string): (r: bool)
    ensures r <==> |suffix| <= |s| && forall k :: 0 <= k < |suffix| ==> s[|s| - |suffix| + k] == suffix[k]
  {
    |suffix| <= |s| && s[|s| - |suffix|..] == suffix
  }

  /** `q` occurs in `s` starting at position `i`. */
  predicate OccursAt(s: string, q: string, i: int) {
    0 <= i <= |s| - |q| && s[i..i + |q|] == q
  }

  /** An occurrence in the tail of `s` is an occurrence in `s` one position further on, and back. */
  lemma {:induction false} OccursInTail(s: string, q: string)
    requires |s| > 0
    ensures (exists i :: OccursAt(s[1..], q, i)) <==> (exists i :: 0 < i && OccursAt(s, q, i))
  {
    if i :| OccursAt(s[1..], q, i) {
      assert s[i + 1..i + 1 + |q|] == s[1..][i..i + |q|];
      assert OccursAt(s, q, i + 1);
    }
    if i :| 0 < i && OccursAt(s, q, i) {
      assert s[1..][i - 1..i - 1 + |q|] == s[i..i + |q|];
      assert OccursAt(s[1..], q, i - 1);
    }
  }

  /**
   * String.prototype.includes: `q` occurs in `s` at some position (the empty
   * string occurs in every string).
   */
  predicate Includes(s: string, q: string): (r: bool)
    ensures r <==> exists i :: OccursAt(s, q, i)
    decreases |s|
  {
    if StartsWith(s, q) then
      assert OccursAt(s, q, 0);
      true
    else if |s| == 0 then
      false
    else
      OccursInTail(s, q);
      Includes(s[1..], q)
  }

  /**
   * The characters that String.prototype.trim removes: the ECMAScript WhiteSpace
   * code points (tab, vertical tab, form feed, space, no-break space, zero-width
   * no-break space and the other Unicode space separators) and the LineTerminator
   * code points (line feed, carriage return, line and paragraph separators).
   */
  const Spaces: set<char> := {
    9 as char, 10 as char, 11 as char, 12 as char, 13 as char, 32 as char, 0xA0 as char,
    0x1680 as char, 0x2000 as char, 0x2001 as char, 0x2002 as char, 0x2003 as char,
    0x2004 as char, 0x2005 as char, 0x2006 as char, 0x2007 as char, 0x2008 as char,
    0x2009 as char, 0x200A as char, 0x2028 as char, 0x2029 as char, 0x202F as char,
    0x205F as char, 0x3000 as char, 0xFEFF as char
  }

  predicate IsSpace(c: char) {
    c in Spaces
  }

  predicate AllSpace(s: string) {
    forall k :: 0 <= k < |s| ==> IsSpace(s[k])
  }

  /** The length of the run of white space that `s` starts with. */
  function LeadingSpace(s: string): (n: nat)
    ensures n <= |s| && AllSpace(s[..n])
    ensures n < |s| ==> !IsSpace(s[n])
  {
    if |s| > 0 && IsSpace(s[0]) then
      var m := LeadingSpace(s[1..]);
      assert s[..m + 1] == [s[0]] + s[1..][..m];
      m + 1
    else
      0
  }

  /** The position where the run of white space that `s` ends with begins. */
  function TrailingSpaceStart(s: string): (n: nat)
    ensures n <= |s| && AllSpace(s[n..])
    ensures n > 0 ==> !IsSpace(s[n - 1])
  {
    if |s| > 0 && IsSpace(s[|s| - 1]) then
      var m := TrailingSpaceStart(s[..|s| - 1]);
      assert s[m..] == s[..|s| - 1][m..] + [s[|s| - 1]];
      m
    else
      |s|
  }

  /** `r` is the piece of `s` at position `i`, and everything around it is white space. */
  predicate SurroundedBySpace(s: string, r: string, i: int) {
    OccursAt(s, r, i) && AllSpace(s[..i]) && AllSpace(s[i + |r|..])
  }

  /** String.prototype.trim: the piece of `s` left once white space is dropped at both ends. */
  function Trim(s: string): (r: string)
    ensures r == [] <==> AllSpace(s)
    ensures r != [] ==> !IsSpace(r[0]) && !IsSpace(r[|r| - 1])
    ensures exists i :: SurroundedBySpace(s, r, i)
  {
    var i := LeadingSpace(s);
    var j := i + TrailingSpaceStart(s[i..]);
    assert s[i..][..j - i] == s[i..j];
    assert s[i..][j - i..] == s[j..];
    assert SurroundedBySpace(s, s[i..j], i);
    s[i..j]
  }

  /** Trimming a trimmed string changes nothing. */
  lemma TrimIdempotent(s: string)
    ensures Trim(Trim(s)) == Trim(s)
  {
    var r := Trim(s);
    if r != [] {
      assert LeadingSpace(r) == 0;
      assert TrailingSpaceStart(r[0..]) == |r|;
      assert r[0..|r|] == r;
    }
  }
}
