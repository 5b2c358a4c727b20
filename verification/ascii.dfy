/**
 * Upper-casing of currency symbols and market identifiers (Python's `str.upper()`),
 * restricted to ASCII: only 'a'..'z' change, every other character is kept.
 */
module Ascii {

  function UpperChar(c: char): char
  {
    if 'a' <= c <= 'z' then (c as int - 32) as char else c
  }

  /** A string that upper-casing leaves unchanged character by character. */
  predicate IsUpper(s: string)
  {
    forall i :: 0 <= i < |s| ==> !('a' <= s[i] <= 'z')
  }

  function Upper(s: string): (r: string)
    ensures |r| == |s|
    ensures forall i :: 0 <= i < |s| ==> r[i] == UpperChar(s[i])
    ensures IsUpper(r)
  {
    if |s| == 0 then "" else [UpperChar(s[0])] + Upper(s[1..])
  }

  /** Upper-casing an already upper-case string changes nothing. */
  lemma UpperOfUpper(s: string)
    requires IsUpper(s)
    ensures Upper(s) == s
  {
  }

  /** Upper-casing twice is upper-casing once. */
  lemma UpperIdempotent(s: string)
    ensures Upper(Upper(s)) == Upper(s)
  {
    UpperOfUpper(Upper(s));
  }

  /** Upper-casing works character by character, so it distributes over concatenation. */
  lemma UpperAppend(a: string, b: string)
    ensures Upper(a + b) == Upper(a) + Upper(b)
  {
  }

  /** '-' is the only character that upper-cases to '-'. */
  lemma UpperDash(s: string)
    ensures ('-' in Upper(s)) <==> ('-' in s)
  {
    if '-' in s {
      var i :| 0 <= i < |s| && s[i] == '-';
      assert Upper(s)[i] == '-';
    }
    if '-' in Upper(s) {
      var i :| 0 <= i < |s| && Upper(s)[i] == '-';
      assert s[i] == '-';
    }
  }
}
