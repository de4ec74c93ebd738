/**
 * The string operations the data layer relies on: String.prototype.trim,
 * toLowerCase (restricted to ASCII letters) and includes.
 */
module Text {

  /** The WhiteSpace and LineTerminator code points of ECMAScript, which trim removes. */
  predicate IsWhitespace(c: char) {
    var n := c as int;
    n == 0x09 || n == 0x0A || n == 0x0B || n == 0x0C || n == 0x0D || n == 0x20 || n == 0xA0
    || n == 0x1680 || (0x2000 <= n <= 0x200A) || n == 0x2028 || n == 0x2029
    || n == 0x202F || n == 0x205F || n == 0x3000 || n == 0xFEFF
  }

  predicate AllWhitespace(s: string) {
    forall k :: 0 <= k < |s| ==> IsWhitespace(s[k])
  }

  /** How many whitespace characters s starts with. */
  function LeadingWhitespace(s: string): (n: nat)
    ensures n <= |s|
    ensures forall k :: 0 <= k < n ==> IsWhitespace(s[k])
    ensures n < |s| ==> !IsWhitespace(s[n])
  {
    if s != [] && IsWhitespace(s[0]) then 1 + LeadingWhitespace(s[1..]) else 0
  }

  /**
   * Where the content of s ends when it starts at from: everything from the
   * result on is whitespace, and the character before it is not (unless the content is empty).
   */
  function ContentEnd(s: string, from: nat): (m: nat)
    requires from <= |s|
    ensures from <= m <= |s|
    ensures forall k :: m <= k < |s| ==> IsWhitespace(s[k])
    ensures from < m ==> !IsWhitespace(s[m - 1])
  {
    if from < |s| && IsWhitespace(s[|s| - 1]) then ContentEnd(s[..|s| - 1], from) else |s|
  }

  /** r is s[i..i + |r|] and every character of s around it is whitespace. */
  predicate SliceBetweenWhitespace(s: string, r: string, i: int) {
    && 0 <= i <= |s| - |r|
    && r == s[i..i + |r|]
    && (forall k :: 0 <= k < i ==> IsWhitespace(s[k]))
    && (forall k :: i + |r| <= k < |s| ==> IsWhitespace(s[k]))
  }

  /** r neither starts nor ends with whitespace. */
  predicate IsTrimmed(r: string) {
    r == [] || (!IsWhitespace(r[0]) && !IsWhitespace(r[|r| - 1]))
  }

  /**
   * String.prototype.trim: the slice of s left after dropping whitespace at
   * both ends, which neither starts nor ends with whitespace and is empty
   * exactly when s is all whitespace.
   */
  function Trim(s: string): (r: string)
    ensures exists i :: SliceBetweenWhitespace(s, r, i)
    ensures IsTrimmed(r)
    ensures r == [] <==> AllWhitespace(s)
  {
    var i := LeadingWhitespace(s);
    var j := ContentEnd(s, i);
    var r := s[i..j];
    assert SliceBetweenWhitespace(s, r, i);
    assert r != [] ==> r[0] == s[i] && r[|r| - 1] == s[j - 1];
    r
  }

  /** ASCII case folding of one character. */
  function LowerChar(c: char): char {
    if 'A' <= c <= 'Z' then (c as int + 32) as char else c
  }

  predicate IsUpper(c: char) {
    'A' <= c <= 'Z'
  }

  /** toLowerCase, restricted to ASCII: same length, each character folded, no upper-case letter left. */
  function Lower(s: string): (r: string)
    ensures |r| == |s|
    ensures forall k :: 0 <= k < |s| ==> r[k] == LowerChar(s[k])
    ensures forall k :: 0 <= k < |r| ==> !IsUpper(r[k])
  {
    if s == [] then [] else [LowerChar(s[0])] + Lower(s[1..])
  }

  /** Lower-casing twice is lower-casing once. */
  lemma LowerIdempotent(s: string)
    ensures Lower(Lower(s)) == Lower(s)
  {
    var l := Lower(s);
    assert forall k :: 0 <= k < |l| ==> Lower(l)[k] == l[k];
  }

  /** t occurs in s starting at offset i. */
  predicate OccursAt(s: string, t: string, i: int) {
    0 <= i <= |s| - |t| && s[i..i + |t|] == t
  }

  /** A string without ASCII upper-case letters is its own lower-case form. */
  lemma LowerKeepsLowercase(s: string)
    requires forall k :: 0 <= k < |s| ==> !IsUpper(s[k])
    ensures Lower(s) == s
  {
    assert forall k :: 0 <= k < |s| ==> Lower(s)[k] == s[k];
  }

  /**
   * String.prototype.includes: t occurs in s at some offset, so it is never
   * longer than s, and s includes t exactly when it includes it at one offset.
   */
  predicate Contains(s: string, t: string)
    ensures Contains(s, t) ==> |t| <= |s|
    ensures forall i :: OccursAt(s, t, i) ==> Contains(s, t)
  {
    exists i | 0 <= i <= |s| - |t| :: OccursAt(s, t, i)
  }

  /** A string that lacks the first character of t does not include t. */
  lemma LacksFirstCharacter(s: string, t: string)
    requires t != [] && t[0] !in s
    ensures !Contains(s, t)
  {
    forall i | 0 <= i <= |s| - |t| ensures !OccursAt(s, t, i) {
      assert s[i] in s;
      assert s[i..i + |t|][0] == s[i];
    }
  }

  /** Every string includes the empty string. */
  lemma ContainsEmpty(s: string)
    ensures Contains(s, [])
  {
    assert OccursAt(s, [], 0);
  }

  /** Every string includes each of its substrings. */
  lemma ContainsSlice(s: string, i: nat, j: nat)
    requires i <= j <= |s|
    ensures Contains(s, s[i..j])
  {
    assert OccursAt(s, s[i..j], i);
  }
}
